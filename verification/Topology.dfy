/** Interfaces and the lists they sit in (satgonetem/services/mixins/interface_mgr.py:56-110,
    satgonetem/models/node.py:347-399). */
module Wiring {
  import opened Nodes
  import opened Links
  import opened LinkSync

  type NodeLists = map<NodeRef, seq<Interface>>

  /** The interfaces of the links that have some, by link. */
  type Wires = map<LinkKey, seq<Interface>>

  function KeyOf(i: Interface): LinkKey {
    {i.name.owner, i.peerName.owner}
  }

  /** Two interfaces, one per end, each the other's peer. */
  predicate WiredPair(s: NodeRef, t: NodeRef, p: seq<Interface>) {
    && |p| == 2
    && p[0].name == IfName(s, t.id) && p[1].name == IfName(t, s.id)
    && p[0].uid != p[1].uid && p[0].peerUid == p[1].uid && p[1].peerUid == p[0].uid
    && p[0].peerName == p[1].name && p[1].peerName == p[0].name
  }

  /** Every link is stored under its own ends, which are two different known nodes, and has no interfaces or
      one mutually peered pair. */
  ghost predicate LinksOk(nodes: set<NodeRef>, links: map<LinkKey, LinkState>) {
    forall k | k in links ::
      var l := links[k];
      && k == {l.source, l.target} && l.source != l.target && l.source in nodes && l.target in nodes
      && (l.peers == [] || WiredPair(l.source, l.target, l.peers))
  }

  function WiresOf(links: map<LinkKey, LinkState>): Wires {
    map k | k in links && links[k].peers != [] :: links[k].peers
  }

  /** The pair of a link between two different known nodes, stored under their key. */
  predicate PairOk(nodes: set<NodeRef>, k: LinkKey, p: seq<Interface>) {
    && |p| == 2
    && var s, t := p[0].name.owner, p[1].name.owner;
       s in nodes && t in nodes && s != t && k == {s, t} && WiredPair(s, t, p)
  }

  ghost predicate WiresOk(nodes: set<NodeRef>, w: Wires) {
    forall k | k in w :: PairOk(nodes, k, w[k])
  }

  predicate NoDup(list: seq<Interface>) {
    forall i, j | 0 <= i < j < |list| :: list[i] != list[j]
  }

  predicate Wired(w: Wires, i: Interface) {
    KeyOf(i) in w && i in w[KeyOf(i)]
  }

  /** A node's list holds exactly the interfaces of its own ends of the wired links, once. */
  ghost predicate ListMatches(w: Wires, n: NodeRef, list: seq<Interface>) {
    NoDup(list) && forall i :: i in list <==> i.name.owner == n && Wired(w, i)
  }

  ghost predicate ListsMatch(nodes: set<NodeRef>, w: Wires, lists: NodeLists) {
    forall n | n in nodes :: n in lists && ListMatches(w, n, lists[n])
  }

  /** The global list holds exactly the interfaces of the wired links, once. */
  ghost predicate GlobalMatch(w: Wires, interfaces: seq<Interface>) {
    NoDup(interfaces) && forall i :: i in interfaces <==> Wired(w, i)
  }

  /** Names tell interfaces apart: two wired interfaces of one owner towards one peer id are one object. */
  lemma SameNameSameInterface(nodes: set<NodeRef>, w: Wires, i: Interface, j: Interface)
    requires UniqueIds(nodes) && WiresOk(nodes, w) && Wired(w, i) && Wired(w, j) && i.name == j.name
    ensures i == j
  {
    EndNames(nodes, w, i);
    EndNames(nodes, w, j);
    assert KeyOf(i) == KeyOf(j);
  }

  lemma PairMember(s: NodeRef, t: NodeRef, p: seq<Interface>, i: Interface)
    requires WiredPair(s, t, p) && i in p
    ensures (i == p[0] && i.name.owner == s && i.name.peerId == t.id && i.peerName == IfName(t, s.id))
         || (i == p[1] && i.name.owner == t && i.name.peerId == s.id && i.peerName == IfName(s, t.id))
  {
  }

  // ---- Removing an interface from a node's list ----

  /** The list without its first interface of that name. */
  function RemoveNamed(list: seq<Interface>, name: IfName): seq<Interface> {
    if list == [] then [] else if list[0].name == name then list[1..] else [list[0]] + RemoveNamed(list[1..], name)
  }

  function FirstTowards(list: seq<Interface>, peerName: IfName): (r: nat)
    ensures r <= |list| && (r < |list| ==> list[r].peerName == peerName)
    ensures forall i | 0 <= i < r :: list[i].peerName != peerName
  {
    if list == [] || list[0].peerName == peerName then 0 else 1 + FirstTowards(list[1..], peerName)
  }

  /** The list after removing the interface connected to a node: the first whose peer has the right name is
      picked, and the first with the picked one's name is removed. */
  function Disconnected(list: seq<Interface>, self: NodeRef, peer: NodeRef): seq<Interface> {
    var k := FirstTowards(list, IfName(peer, self.id));
    if k == |list| then list else RemoveNamed(list, list[k].name)
  }

  /** remove_interface_connected_to_node. */
  method RemoveInterfaceConnectedToNode(list: seq<Interface>, self: NodeRef, peer: NodeRef) returns (r: seq<Interface>)
    ensures r == Disconnected(list, self, peer)
  {
    var ethName := IfName(peer, self.id);
    var k := 0;
    while k < |list| && list[k].peerName != ethName
      invariant k <= |list| && forall i | 0 <= i < k :: list[i].peerName != ethName
    {
      k := k + 1;
    }
    FirstIs(list, ethName, k);
    if k == |list| {
      return list;
    }
    var j := 0;
    while list[j].name != list[k].name
      invariant 0 <= j <= k && forall i | 0 <= i < j :: list[i].name != list[k].name
      decreases k - j
    {
      j := j + 1;
    }
    RemoveNamedAt(list, list[k].name, j);
    return list[..j] + list[j + 1..];
  }

  lemma FirstIs(list: seq<Interface>, peerName: IfName, k: nat)
    requires k <= |list| && (k < |list| ==> list[k].peerName == peerName)
    requires forall i | 0 <= i < k :: list[i].peerName != peerName
    ensures FirstTowards(list, peerName) == k
  {
    var f := FirstTowards(list, peerName);
  }

  lemma {:induction false} RemoveNamedAt(list: seq<Interface>, name: IfName, j: nat)
    requires j < |list| && list[j].name == name && forall i | 0 <= i < j :: list[i].name != name
    ensures RemoveNamed(list, name) == list[..j] + list[j + 1..]
  {
    if j > 0 {
      RemoveNamedAt(list[1..], name, j - 1);
      assert list[..j] == [list[0]] + list[1..][..j - 1];
      assert list[j + 1..] == list[1..][j..];
    }
  }

  lemma DropAt(list: seq<Interface>, j: nat)
    requires NoDup(list) && j < |list|
    ensures NoDup(list[..j] + list[j + 1..])
    ensures forall i :: i in list[..j] + list[j + 1..] <==> i in list && i != list[j]
  {
    var r := list[..j] + list[j + 1..];
    assert forall k | 0 <= k < |r| :: r[k] == if k < j then list[k] else list[k + 1];
    forall i | i in list && i != list[j] ensures i in r {
      var k :| 0 <= k < |list| && list[k] == i;
      assert r[if k < j then k else k - 1] == i;
    }
  }

  /** Removing by name takes out one interface and leaves the rest, when no other has its name. */
  lemma RemoveNamedOnly(list: seq<Interface>, x: Interface)
    requires NoDup(list) && x in list && forall i | i in list && i.name == x.name :: i == x
    ensures NoDup(RemoveNamed(list, x.name))
    ensures forall i :: i in RemoveNamed(list, x.name) <==> i in list && i != x
  {
    var j :| 0 <= j < |list| && list[j] == x;
    forall i | 0 <= i < j ensures list[i].name != x.name { assert list[i] in list; }
    RemoveNamedAt(list, x.name, j);
    DropAt(list, j);
  }

  /** Disconnecting the ends of a wired link takes out exactly its interface on that side. */
  lemma DisconnectWired(nodes: set<NodeRef>, w: Wires, lists: NodeLists, self: NodeRef, peer: NodeRef, x: Interface)
    requires UniqueIds(nodes) && WiresOk(nodes, w) && ListsMatch(nodes, w, lists)
    requires self in nodes && peer in nodes && x in lists[self]
    requires x.name == IfName(self, peer.id) && x.peerName == IfName(peer, self.id)
    ensures NoDup(Disconnected(lists[self], self, peer))
    ensures forall i :: i in Disconnected(lists[self], self, peer) <==> i in lists[self] && i != x
  {
    var list := lists[self];
    forall i | i in list && (i.name == x.name || i.peerName == x.peerName) ensures i == x {
      if i.peerName == x.peerName {
        EndNames(nodes, w, i);
      }
      SameNameSameInterface(nodes, w, i, x);
    }
    var k := FirstTowards(list, IfName(peer, self.id));
    assert k < |list|;
    assert list[k] in list;
    RemoveNamedOnly(list, x);
  }

  /** A wired interface's name and its peer's name mirror each other. */
  lemma EndNames(nodes: set<NodeRef>, w: Wires, i: Interface)
    requires WiresOk(nodes, w) && Wired(w, i)
    ensures i.name.peerId == i.peerName.owner.id && i.peerName.peerId == i.name.owner.id
    ensures i.name.owner in nodes && i.peerName.owner in nodes && i.name.owner != i.peerName.owner
  {
    var p := w[KeyOf(i)];
    assert PairOk(nodes, KeyOf(i), p);
    PairMember(p[0].name.owner, p[1].name.owner, p, i);
  }

  lemma NotTowards(nodes: set<NodeRef>, w: Wires, lists: NodeLists, self: NodeRef, peer: NodeRef, i: Interface)
    requires WiresOk(nodes, w) && ListsMatch(nodes, w, lists)
    requires self in nodes && {self, peer} !in w && i in lists[self]
    ensures i.peerName != IfName(peer, self.id)
  {
    assert KeyOf(i) in w && i.name.owner == self;
  }

  /** Disconnecting the ends of a link without interfaces changes nothing. */
  lemma DisconnectUnwired(nodes: set<NodeRef>, w: Wires, lists: NodeLists, self: NodeRef, peer: NodeRef)
    requires WiresOk(nodes, w) && ListsMatch(nodes, w, lists)
    requires self in nodes && {self, peer} !in w
    ensures Disconnected(lists[self], self, peer) == lists[self]
  {
    var list := lists[self];
    var k := FirstTowards(list, IfName(peer, self.id));
    if k < |list| {
      NotTowards(nodes, w, lists, self, peer, list[k]);
      assert false;
    }
  }

  /** Taking one link's wires away on both sides. */
  lemma WithoutLink(nodes: set<NodeRef>, w: Wires, lists: NodeLists, s: NodeRef, t: NodeRef)
    requires UniqueIds(nodes) && WiresOk(nodes, w) && ListsMatch(nodes, w, lists)
    requires s in nodes && t in nodes && s != t && ({s, t} in w ==> WiredPair(s, t, w[{s, t}]))
    ensures var lists1 := lists[s := Disconnected(lists[s], s, t)];
            var lists2 := lists1[t := Disconnected(lists1[t], t, s)];
            ListsMatch(nodes, w - {{s, t}}, lists2)
  {
    hide UniqueIds, WiresOk, Disconnected;
    var k, w' := {s, t}, w - {{s, t}};
    assert {t, s} == k;
    var lists1 := lists[s := Disconnected(lists[s], s, t)];
    var lists2 := lists1[t := Disconnected(lists1[t], t, s)];
    assert lists1[t] == lists[t];
    if k in w {
      var a, b := w[k][0], w[k][1];
      assert Wired(w, a) && Wired(w, b);
      DisconnectWired(nodes, w, lists, s, t, a);
      DisconnectWired(nodes, w, lists, t, s, b);
      forall n | n in nodes ensures ListMatches(w', n, lists2[n]) {
        WithoutPairAt(w, lists[n], lists2[n], s, t, n);
      }
    } else {
      DisconnectUnwired(nodes, w, lists, s, t);
      DisconnectUnwired(nodes, w, lists, t, s);
      assert w' == w && lists2 == lists;
    }
  }

  lemma WithoutPairAt(w: Wires, before: seq<Interface>, after: seq<Interface>, s: NodeRef, t: NodeRef, n: NodeRef)
    requires {s, t} in w && WiredPair(s, t, w[{s, t}]) && s != t && ListMatches(w, n, before) && NoDup(after)
    requires var p := w[{s, t}];
             forall i :: i in after <==> i in before && (n == s ==> i != p[0]) && (n == t ==> i != p[1])
    ensures ListMatches(w - {{s, t}}, n, after)
  {
    forall i ensures i in after <==> i.name.owner == n && Wired(w - {{s, t}}, i) {
      WithoutPair(w, s, t, i);
    }
  }

  lemma WithoutPair(w: Wires, s: NodeRef, t: NodeRef, i: Interface)
    requires {s, t} in w && WiredPair(s, t, w[{s, t}])
    ensures Wired(w - {{s, t}}, i) <==> Wired(w, i) && i != w[{s, t}][0] && i != w[{s, t}][1]
  {
    var p := w[{s, t}];
    assert KeyOf(p[0]) == {s, t} && KeyOf(p[1]) == {s, t};
    if i in p {
      PairMember(s, t, p, i);
    }
  }

  /** The list without the interfaces that have the name of one of the given ones. */
  function WithoutNames(list: seq<Interface>, gone: seq<Interface>): seq<Interface> {
    if list == [] then []
    else
      var n := |list| - 1;
      WithoutNames(list[..n], gone)
      + (if exists j | 0 <= j < |gone| :: gone[j].name == list[n].name then [] else [list[n]])
  }

  lemma {:induction false} WithoutNamesMembers(list: seq<Interface>, gone: seq<Interface>)
    requires NoDup(list)
    ensures NoDup(WithoutNames(list, gone))
    ensures forall i :: i in WithoutNames(list, gone)
                        <==> i in list && forall j | 0 <= j < |gone| :: gone[j].name != i.name
  {
    if list != [] {
      var n := |list| - 1;
      WithoutNamesMembers(list[..n], gone);
      assert list[n] !in list[..n];
      assert list == list[..n] + [list[n]];
    }
  }

  /** Cleaning one link's interfaces out of the global list. */
  lemma GlobalWithoutLink(nodes: set<NodeRef>, w: Wires, interfaces: seq<Interface>, k: LinkKey, peers: seq<Interface>)
    requires UniqueIds(nodes) && WiresOk(nodes, w) && GlobalMatch(w, interfaces)
    requires if k in w then peers == w[k] else peers == []
    ensures GlobalMatch(w - {k}, WithoutNames(interfaces, peers))
  {
    WithoutNamesMembers(interfaces, peers);
    if k in w {
      assert PairOk(nodes, k, w[k]);
      var s, t := w[k][0].name.owner, w[k][1].name.owner;
      forall i | Wired(w, i) ensures (forall j | 0 <= j < |peers| :: peers[j].name != i.name) <==> Wired(w - {k}, i) {
        KeptUnlessPaired(nodes, w, s, t, i);
      }
      forall i | Wired(w - {k}, i) ensures Wired(w, i) {
      }
    } else {
      assert w - {k} == w;
    }
  }

  lemma KeptUnlessPaired(nodes: set<NodeRef>, w: Wires, s: NodeRef, t: NodeRef, i: Interface)
    requires UniqueIds(nodes) && WiresOk(nodes, w) && {s, t} in w && WiredPair(s, t, w[{s, t}]) && Wired(w, i)
    ensures (forall j | 0 <= j < |w[{s, t}]| :: w[{s, t}][j].name != i.name) <==> Wired(w - {{s, t}}, i)
  {
    var p := w[{s, t}];
    WithoutPair(w, s, t, i);
    assert KeyOf(p[0]) == {s, t} && KeyOf(p[1]) == {s, t};
    assert Wired(w, p[0]) && Wired(w, p[1]);
    if p[0].name == i.name {
      SameNameSameInterface(nodes, w, i, p[0]);
    }
    if p[1].name == i.name {
      SameNameSameInterface(nodes, w, i, p[1]);
    }
  }

  /** A new pair of interfaces for a link. */
  function NewPair(s: NodeRef, t: NodeRef, uid: nat): (p: seq<Interface>)
    ensures WiredPair(s, t, p) && |p| == 2
  {
    var n1, n2 := IfName(s, t.id), IfName(t, s.id);
    [Interface(uid, n1, uid + 1, n2), Interface(uid + 1, n2, uid, n1)]
  }

  lemma WithPair(w: Wires, s: NodeRef, t: NodeRef, p: seq<Interface>, i: Interface)
    requires {s, t} !in w && WiredPair(s, t, p)
    ensures Wired(w[{s, t} := p], i) <==> Wired(w, i) || i == p[0] || i == p[1]
  {
    assert KeyOf(p[0]) == {s, t} && KeyOf(p[1]) == {s, t};
    if i in p {
      PairMember(s, t, p, i);
    }
  }

  /** Wiring a link that had no interfaces. */
  lemma WithLink(nodes: set<NodeRef>, w: Wires, lists: NodeLists, interfaces: seq<Interface>,
                 s: NodeRef, t: NodeRef, p: seq<Interface>)
    requires WiresOk(nodes, w) && ListsMatch(nodes, w, lists) && GlobalMatch(w, interfaces)
    requires s in nodes && t in nodes && s != t && {s, t} !in w && WiredPair(s, t, p)
    ensures var w' := w[{s, t} := p];
            && WiresOk(nodes, w') && GlobalMatch(w', interfaces + p)
            && ListsMatch(nodes, w', lists[s := lists[s] + [p[0]]][t := lists[t] + [p[1]]])
  {
    var w' := w[{s, t} := p];
    assert !Wired(w, p[0]) && !Wired(w, p[1]) by {
      assert KeyOf(p[0]) == {s, t} && KeyOf(p[1]) == {s, t};
    }
    forall i ensures Wired(w', i) <==> Wired(w, i) || i == p[0] || i == p[1] {
      WithPair(w, s, t, p, i);
    }
    assert p == [p[0], p[1]];
    var lists' := lists[s := lists[s] + [p[0]]][t := lists[t] + [p[1]]];
    forall n | n in nodes ensures n in lists' && ListMatches(w', n, lists'[n]) {
    }
    forall k | k in w' ensures PairOk(nodes, k, w'[k]) {
      assert k != {s, t} ==> PairOk(nodes, k, w[k]);
    }
  }
}

/** The topology manager over one tick: links, interface lists, and the emulator's veth pairs
    (satgonetem/services/mixins/topology_sync.py:162-242, 573-608; link_ops.py:369-448). */
module Reconcile {
  import opened Wrappers
  import opened Nodes
  import opened Links
  import opened LinkSync
  import opened TickReports
  import opened Wiring

  /** What the launcher pushes for a link. */
  function PushedFor(cfg: Config, l: LinkState): Qos {
    Request(l, cfg.fallbackOf(l.kind))
  }

  /** The emulator has a pair for exactly the active links, and was last pushed each link's current values. */
  ghost predicate Emulates(cfg: Config, links: map<LinkKey, LinkState>, veths: map<LinkKey, Qos>) {
    && (forall k :: k in veths <==> k in links && links[k].isActive)
    && (forall k | k in veths :: veths[k] == PushedFor(cfg, links[k]))
  }

  /** Links, node lists and the global list agree. */
  ghost predicate Agree(nodes: set<NodeRef>, links: map<LinkKey, LinkState>, lists: NodeLists,
      interfaces: seq<Interface>) {
    && UniqueIds(nodes) && LinksOk(nodes, links)
    && ListsMatch(nodes, WiresOf(links), lists) && GlobalMatch(WiresOf(links), interfaces)
  }

  class TopologyManager {
    const cfg: Config
    var links: map<LinkKey, LinkState>
    var nodeInterfaces: NodeLists
    var interfaces: seq<Interface>
    var interfaceVersion: nat
    var initialSync: bool
    var nextUid: nat
    var veths: map<LinkKey, Qos>  // the emulator's pairs and what was last pushed to each

    constructor (cfg: Config)
      ensures this.cfg == cfg && links == map[] && interfaces == [] && interfaceVersion == 0 && !initialSync
      ensures nodeInterfaces == (map n | n in cfg.nodes :: []) && veths == map[]
    {
      this.cfg := cfg;
      links, interfaces, interfaceVersion, initialSync, nextUid := map[], [], 0, false, 0;
      nodeInterfaces := map n | n in cfg.nodes :: [];
      veths := map[];
    }

    function RequestFor(l: LinkState): Qos {
      PushedFor(cfg, l)
    }

    /** Links, node lists and the global list agree. */
    ghost predicate Consistent()
      reads this
    {
      Agree(cfg.nodes, links, nodeInterfaces, interfaces)
    }

    /** What holds between ticks. */
    ghost predicate Settled()
      reads this
    {
      && Consistent() && Emulates(cfg, links, veths) && initialSync
      && forall k | k in links :: AtRest(links[k])
    }

    /** The loop over the reports: links created or flipped. */
    method SyncReports(reports: seq<Report>, measure: LinkKey -> Measure)
      returns (current: set<LinkKey>, refresh: set<LinkKey>)
      modifies this`links
      ensures forall k :: k in current <==> ReportsFor(reports, k) != []
      ensures current * old(links).Keys <= refresh <= current * links.Keys
      ensures forall k ::
                Lookup(links, k)
                == SyncedBy(cfg, initialSync, Lookup(old(links), k), ReportsFor(reports, k), measure(k))
    {
      current, refresh := {}, {};
      NoReports(cfg, initialSync, links, measure);
      hide SyncedBy, Created, Flipped, ReportsFor;
      assert reports[..0] == [];
      for i := 0 to |reports|
        invariant forall k :: k in current <==> ReportsFor(reports[..i], k) != []
        invariant current * old(links).Keys <= refresh <= current * links.Keys
        invariant forall k ::
                    Lookup(links, k)
                    == SyncedBy(cfg, initialSync, Lookup(old(links), k), ReportsFor(reports[..i], k), measure(k))
      {
        var r := reports[i];
        var key := KeyOfReport(r);
        assert reports[..i + 1][..i] == reports[..i];
        ghost var before := links;
        if key.Some? {
          var k := key.value;
          current := current + {k};
          if k !in links {
            var created := Created(cfg, initialSync, r, measure(k));
            if created.Some? {
              links := links[k := created.value];
            }
          } else {
            links := links[k := Flipped(links[k], r)];
            refresh := refresh + {k};
          }
        }
        forall k
          ensures k in current <==> ReportsFor(reports[..i + 1], k) != []
          ensures Lookup(links, k)
                  == SyncedBy(cfg, initialSync, Lookup(old(links), k), ReportsFor(reports[..i + 1], k), measure(k))
        {
          assert Lookup(before, k)
                 == SyncedBy(cfg, initialSync, Lookup(old(links), k), ReportsFor(reports[..i], k), measure(k));
          OneMoreReport(cfg, initialSync, Lookup(old(links), k), reports[..i + 1], k, measure(k));
        }
      }
      assert reports[..|reports|] == reports;
    }

    /** The batch that refreshes distances and delays of the links that were already known. */
    method RefreshDistances(refresh: set<LinkKey>, measure: LinkKey -> Measure)
      requires refresh <= links.Keys
      modifies this`links
      ensures forall k :: Lookup(links, k) == if k in refresh then Some(Moved(old(links)[k], measure(k)))
                                              else Lookup(old(links), k)
    {
      var todo := refresh;
      while todo != {}
        invariant todo <= refresh <= links.Keys
        invariant forall k :: Lookup(links, k) == if k in refresh - todo then Some(Moved(old(links)[k], measure(k)))
                                                  else Lookup(old(links), k)
      {
        var k :| k in todo;
        assert Lookup(links, k) == Lookup(old(links), k);
        links := links[k := Moved(links[k], measure(k))];
        todo := todo - {k};
      }
    }

    /** Links that are no longer reported are marked for removal. */
    method MarkMissing(current: set<LinkKey>)
      modifies this`links
      ensures forall k :: Lookup(links, k) == if k in old(links) && k !in current
                                              then Some(old(links)[k].(toRemove := true)) else Lookup(old(links), k)
    {
      var missing := links.Keys - current;
      var todo := missing;
      while todo != {}
        invariant todo <= missing <= links.Keys
        invariant forall k :: Lookup(links, k) == if k in missing - todo then Some(old(links)[k].(toRemove := true))
                                                  else Lookup(old(links), k)
      {
        var k :| k in todo;
        assert Lookup(links, k) == Lookup(old(links), k);
        links := links[k := links[k].(toRemove := true)];
        todo := todo - {k};
      }
    }

    /** _sync_links: every link becomes what its own report makes of it, and the three lists partition the
        marked links, removal first. */
    method SyncLinks(reports: seq<Report>, measure: LinkKey -> Measure)
      returns (toAdd: set<LinkKey>, toUpdate: set<LinkKey>, toRemove: set<LinkKey>)
      modifies this`links, this`initialSync
      ensures initialSync
      ensures forall k :: Lookup(links, k)
                          == Synced(cfg, old(initialSync), Lookup(old(links), k), ReportsFor(reports, k), measure(k))
      ensures toRemove == set k | k in links && links[k].toRemove
      ensures toAdd == set k | k in links && !links[k].toRemove && links[k].toAdd
      ensures toUpdate == set k | k in links && !links[k].toRemove && !links[k].toAdd && links[k].toUpdate
    {
      var current, refresh := SyncReports(reports, measure);
      ghost var reported := links;
      RefreshDistances(refresh, measure);
      ghost var moved := links;
      MarkMissing(current);
      forall k ensures Lookup(links, k)
                       == Synced(cfg, initialSync, Lookup(old(links), k), ReportsFor(reports, k), measure(k))
      {
        SyncedInSteps(cfg, initialSync, old(links), reported, moved, links, current, refresh, reports, measure, k);
      }
      toRemove, toAdd, toUpdate := {}, {}, {};
      var todo := links.Keys;
      while todo != {}
        modifies {}
        invariant todo <= links.Keys
        invariant toRemove == set k | k in links.Keys - todo && links[k].toRemove
        invariant toAdd == set k | k in links.Keys - todo && !links[k].toRemove && links[k].toAdd
        invariant toUpdate
                  == set k | k in links.Keys - todo && !links[k].toRemove && !links[k].toAdd && links[k].toUpdate
      {
        var k :| k in todo;
        var l := links[k];
        if l.toRemove {
          toRemove := toRemove + {k};
        } else if l.toAdd {
          toAdd := toAdd + {k};
        } else if l.toUpdate {
          toUpdate := toUpdate + {k};
        }
        todo := todo - {k};
      }
      initialSync := true;
    }

    // ---- The emulator ----

    /** Deleting a pair that does not exist fails and is logged. */
    method DeleteVeths(keys: set<LinkKey>)
      modifies this`veths
      ensures veths == old(veths) - keys
    {
      var todo := keys;
      while todo != {}
        invariant todo <= keys && veths == old(veths) - (keys - todo)
      {
        var k :| k in todo;
        veths := veths - {k};
        todo := todo - {k};
      }
    }

    /** Updating a pair that does not exist fails and is logged. */
    method UpdateVeths(keys: set<LinkKey>)
      requires keys <= links.Keys
      modifies this`veths
      ensures veths.Keys == old(veths).Keys
      ensures forall k | k in veths :: veths[k] == if k in keys then RequestFor(links[k]) else old(veths)[k]
    {
      var todo := keys;
      while todo != {}
        invariant todo <= keys && veths.Keys == old(veths).Keys
        invariant forall k | k in veths :: veths[k] == if k in keys - todo then RequestFor(links[k]) else old(veths)[k]
      {
        var k :| k in todo;
        if k in veths {
          veths := veths[k := RequestFor(links[k])];
        }
        todo := todo - {k};
      }
    }

    /** Adding a pair that exists fails and is logged. */
    method AddVeths(keys: set<LinkKey>)
      requires keys <= links.Keys
      modifies this`veths
      ensures veths.Keys == old(veths).Keys + keys
      ensures forall k | k in veths :: veths[k] == if k in old(veths) then old(veths)[k] else RequestFor(links[k])
    {
      var todo := keys;
      while todo != {}
        invariant todo <= keys && veths.Keys == old(veths).Keys + (keys - todo)
        invariant forall k | k in veths :: veths[k] == if k in old(veths) then old(veths)[k] else RequestFor(links[k])
      {
        var k :| k in todo;
        if k !in veths {
          veths := veths[k := RequestFor(links[k])];
        }
        todo := todo - {k};
      }
    }

    // ---- Interfaces ----

    /** _remove_link_interfaces; w is what the lists hold. */
    method RemoveLinkInterfaces(l: LinkState, ghost w: Wires)
      requires UniqueIds(cfg.nodes) && WiresOk(cfg.nodes, w) && ListsMatch(cfg.nodes, w, nodeInterfaces)
      requires l.source in cfg.nodes && l.target in cfg.nodes && l.source != l.target
      requires {l.source, l.target} in w ==> WiredPair(l.source, l.target, w[{l.source, l.target}])
      modifies this`nodeInterfaces, this`interfaceVersion
      ensures ListsMatch(cfg.nodes, w - {{l.source, l.target}}, nodeInterfaces)
      ensures interfaceVersion == old(interfaceVersion) + 1
    {
      WithoutLink(cfg.nodes, w, nodeInterfaces, l.source, l.target);
      var list := RemoveInterfaceConnectedToNode(nodeInterfaces[l.source], l.source, l.target);
      nodeInterfaces := nodeInterfaces[l.source := list];
      list := RemoveInterfaceConnectedToNode(nodeInterfaces[l.target], l.target, l.source);
      nodeInterfaces := nodeInterfaces[l.target := list];
      interfaceVersion := interfaceVersion + 1;
    }

    /** The interfaces of the removed links leave their nodes' lists, one link at a time. */
    method RemoveInterfaces(keys: set<LinkKey>)
      requires Consistent() && keys <= links.Keys
      modifies this`nodeInterfaces, this`interfaceVersion
      ensures ListsMatch(cfg.nodes, WiresOf(links) - keys, nodeInterfaces)
      ensures interfaceVersion == old(interfaceVersion) + |keys|
    {
      hide ListsMatch, GlobalMatch, WiresOf, WiresOk, WiredPair, LinksOk, UniqueIds;
      var todo := keys;
      ghost var done: set<LinkKey> := {};
      DropNone(WiresOf(links));
      while todo != {}
        invariant todo + done == keys && todo !! done
        invariant ListsMatch(cfg.nodes, WiresOf(links) - done, nodeInterfaces)
        invariant interfaceVersion + |todo| == old(interfaceVersion) + |keys|
      {
        var k :| k in todo;
        WiresAreOk(cfg.nodes, links, done);
        LinkWires(cfg.nodes, links, done, k);
        RemoveLinkInterfaces(links[k], WiresOf(links) - done);
        DropOneMore(WiresOf(links), done, k);
        todo, done := todo - {k}, done + {k};
      }
    }

    /** The removed links leave the global list and the dictionary. */
    method CleanupRemoved(keys: set<LinkKey>)
      requires UniqueIds(cfg.nodes) && LinksOk(cfg.nodes, links) && GlobalMatch(WiresOf(links), interfaces)
      requires keys <= links.Keys
      modifies this`interfaces, this`links
      ensures links == old(links) - keys && GlobalMatch(WiresOf(links), interfaces)
    {
      var todo := keys;
      ghost var done: set<LinkKey> := {};
      while todo != {}
        invariant todo + done == keys && todo !! done && links == old(links) - done
        invariant LinksOk(cfg.nodes, links) && GlobalMatch(WiresOf(links), interfaces)
      {
        var k :| k in todo;
        CleanupOne(cfg.nodes, links, interfaces, k);
        interfaces := WithoutNames(interfaces, links[k].peers);
        links := links - {k};
        todo, done := todo - {k}, done + {k};
      }
    }

    /** The update tasks of the pool. */
    method UpdateFlags(keys: set<LinkKey>)
      requires keys <= links.Keys
      modifies this`links
      ensures forall k ::
                Lookup(links, k) == if k in keys then Some(old(links)[k].(toUpdate := false)) else Lookup(old(links), k)
    {
      var todo := keys;
      while todo != {}
        invariant todo <= keys <= links.Keys
        invariant forall k :: Lookup(links, k) == if k in keys - todo then Some(old(links)[k].(toUpdate := false))
                                                  else Lookup(old(links), k)
      {
        var k :| k in todo;
        assert Lookup(links, k) == Lookup(old(links), k);
        links := links[k := links[k].(toUpdate := false)];
        todo := todo - {k};
      }
    }

    /** The addition tasks of the pool, in any order. Their increments of the version may get lost, but not
        all of them (module InterfaceVersion). */
    method AddInterfaces(keys: set<LinkKey>)
      requires Consistent() && keys <= links.Keys && forall k | k in keys :: links[k].peers == []
      modifies this`links, this`nodeInterfaces, this`interfaces, this`interfaceVersion, this`nextUid
      ensures Consistent()
      ensures links.Keys == old(links).Keys
      ensures forall k | k in links ::
                if k in keys then BuiltFrom(old(links)[k], links[k]) else links[k] == old(links)[k]
      ensures old(interfaceVersion) + (if keys == {} then 0 else 1) <= interfaceVersion
      ensures interfaceVersion <= old(interfaceVersion) + |keys|
    {
      hide Agree;
      var todo := keys;
      while todo != {}
        invariant todo <= keys && Consistent() && links.Keys == old(links).Keys
        invariant forall k | k in links ::
                    if k in keys - todo then BuiltFrom(old(links)[k], links[k]) else links[k] == old(links)[k]
        invariant interfaceVersion == old(interfaceVersion)
      {
        var k :| k in todo;
        BuildInterfaces(k);
        todo := todo - {k};
      }
      if keys != {} {
        var lost :| 0 <= lost < |keys|;
        interfaceVersion := interfaceVersion + |keys| - lost;
      }
    }

    /** _build_interfaces_from_link, without its increment of the version: a pair more, whatever the link has.
        Everything still agrees exactly when the link had none. */
    method BuildInterfaces(k: LinkKey)
      requires Consistent() && k in links
      modifies this`links, this`nodeInterfaces, this`interfaces, this`nextUid
      ensures Consistent() <==> old(links)[k].peers == []
      ensures k in links && links == old(links)[k := links[k]] && |links[k].peers| == |old(links)[k].peers| + 2
      ensures links[k] == old(links)[k].(toAdd := false, peers := links[k].peers)
      ensures BuiltFrom(old(links)[k], links[k])
    {
      hide Agree, WiredPair;
      OwnEnds(cfg.nodes, links, nodeInterfaces, interfaces, k);
      var l := links[k];
      var p := NewPair(l.source, l.target, nextUid);
      nextUid := nextUid + 2;
      if l.peers == [] {
        BuildOne(cfg.nodes, links, nodeInterfaces, interfaces, k, p);
      }
      nodeInterfaces := nodeInterfaces[l.source := nodeInterfaces[l.source] + [p[0]]];
      nodeInterfaces := nodeInterfaces[l.target := nodeInterfaces[l.target] + [p[1]]];
      interfaces := interfaces + p;
      links := links[k := l.(toAdd := false, peers := l.peers + p)];
      if l.peers != [] {
        TwoPairs(cfg.nodes, links, nodeInterfaces, interfaces, k);
      }
    }

    /** init() and the launch: every reported link gets interfaces, active or not; the emulator starts with
        the active ones. What holds between ticks holds from the start exactly when every link is active. */
    method InitAndLaunch(reports: seq<Report>, measure: LinkKey -> Measure)
      requires links == map[] && interfaces == [] && veths == map[] && !initialSync
      requires UniqueIds(cfg.nodes) && forall n | n in cfg.nodes :: n in nodeInterfaces && nodeInterfaces[n] == []
      requires ProperReports(reports)
      modifies this
      ensures Consistent() && Emulates(cfg, links, veths) && initialSync
      ensures forall k :: StartedAt(cfg, links, reports, measure, k)
      ensures forall k :: StartOutcome(cfg, links, nodeInterfaces, interfaces, veths, reports, measure, k)
      ensures Settled() <==> forall k | k in links :: links[k].isActive
    {
      hide ListsMatch, GlobalMatch, WiresOf, UniqueIds, LinksOk, Synced, ProperReports, BuiltFrom, AtRest, StartedAt,
          Agree, Emulates, StartOutcome;
      var added, updated, removed := SyncLinks(reports, measure);
      ghost var synced := links;
      FirstSync(cfg, synced, reports, measure);
      NothingWired(cfg.nodes, nodeInterfaces, synced);
      AddInterfaces(links.Keys);
      veths := map k | k in links && links[k].isActive :: RequestFor(links[k]);
      Started(cfg, synced, links, reports, measure);
      Launched(cfg, links, veths);
      forall k ensures StartOutcome(cfg, links, nodeInterfaces, interfaces, veths, reports, measure, k) {
        StartOutcomeAt(cfg, links, nodeInterfaces, interfaces, veths, reports, measure, k);
      }
    }

    /** The delete half of a tick. */
    method ApplyRemovals(removed: set<LinkKey>)
      requires Consistent() && removed <= links.Keys
      modifies this`links, this`nodeInterfaces, this`interfaces, this`interfaceVersion, this`veths
      ensures Consistent()
      ensures links == old(links) - removed && veths == old(veths) - removed
      ensures interfaceVersion == old(interfaceVersion) + |removed|
    {
      hide ListsMatch, GlobalMatch, LinksOk, UniqueIds, WiresOf;
      ghost var before := links;
      DropLinks(cfg.nodes, before, removed);
      DeleteVeths(removed);
      RemoveInterfaces(removed);
      CleanupRemoved(removed);
    }

    /** The update and add half of a tick. */
    method ApplyUpdatesAndAdditions(updated: set<LinkKey>, added: set<LinkKey>)
      requires Consistent() && updated <= links.Keys && added <= links.Keys && updated !! added
      requires forall k | k in added :: links[k].peers == []
      modifies this`links, this`nodeInterfaces, this`interfaces, this`interfaceVersion, this`nextUid, this`veths
      ensures Consistent() && links.Keys == old(links).Keys
      ensures forall k | k in links ::
                if k in added then BuiltFrom(old(links)[k], links[k])
                else links[k] == if k in updated then old(links)[k].(toUpdate := false) else old(links)[k]
      ensures veths.Keys == old(veths).Keys + added
      ensures forall k | k in veths ::
                veths[k] == if k in updated || k !in old(veths) then RequestFor(old(links)[k]) else old(veths)[k]
      ensures old(interfaceVersion) + (if added == {} then 0 else 1) <= interfaceVersion
    {
      hide Agree, RequestFor, BuiltFrom;
      UpdateVeths(updated);
      AddVeths(added);
      FlagUpdated(updated);
      AddInterfaces(added);
    }

    /** Clearing the flags leaves the wiring as it is. */
    method FlagUpdated(updated: set<LinkKey>)
      requires Consistent() && updated <= links.Keys
      modifies this`links
      ensures Consistent() && links.Keys == old(links).Keys
      ensures forall k | k in links ::
                links[k] == if k in updated then old(links)[k].(toUpdate := false) else old(links)[k]
    {
      hide ListsMatch, GlobalMatch, LinksOk, UniqueIds, WiresOf;
      ghost var before := links;
      UpdateFlags(updated);
      LookupsSame(before, links, updated);
      SamePeers(cfg.nodes, before, links);
    }

    /** One tick: sync, delete, then update and add. Each link ends as its own report makes it, a marked link
        is gone, a new or returning active link is wired, and everything agrees again. */
    method UpdateSimulation(reports: seq<Report>, measure: LinkKey -> Measure)
      returns (added: set<LinkKey>, updated: set<LinkKey>, removed: set<LinkKey>)
      requires Settled() && ProperReports(reports) && NoQuarrel(links, reports)
      modifies this
      ensures Settled()
      ensures forall k :: TickedAt(cfg, old(links), links, added, removed, reports, measure, k)
      ensures forall k :: UpdatedAt(cfg, old(links), updated, reports, measure, k)
      ensures forall k ::
                TickOutcome(cfg, old(links), links, nodeInterfaces, interfaces, veths, reports, measure, k)
      ensures interfaceVersion >= old(interfaceVersion) + (if added + removed == {} then 0 else 1)
    {
      hide ListsMatch, GlobalMatch, LinksOk, UniqueIds, WiresOf, Synced, AtRest, Emulates, SyncKept, TickedAt,
           BuiltFrom, ProperReports, NoQuarrel, UpdatedAt, TickOutcome;
      ghost var before, pairs := links, veths;
      added, updated, removed := SyncLinks(reports, measure);
      ghost var synced := links;
      AfterSync(cfg, before, synced, reports, measure);
      UpdatedEvery(cfg, before, synced, added, updated, removed, reports, measure);
      Partitioned(cfg, before, synced, added, updated, removed);
      ApplyRemovals(removed);
      ApplyUpdatesAndAdditions(updated, added);
      TickSettles(cfg, before, synced, links, pairs, veths, added, updated, removed);
      TickedEvery(cfg, before, synced, links, added, updated, removed, reports, measure);
      OutcomeEvery(cfg, before, links, nodeInterfaces, interfaces, veths, added, removed, reports, measure);
    }
  }

  /** The two halves did to the synced links what their marks ask for. */
  ghost predicate Applied(synced: map<LinkKey, LinkState>, after: map<LinkKey, LinkState>,
                          added: set<LinkKey>, updated: set<LinkKey>, removed: set<LinkKey>)
    requires added <= synced.Keys && updated <= synced.Keys
  {
    && after.Keys == synced.Keys - removed
    && forall k | k in after ::
         if k in added then BuiltFrom(synced[k], after[k])
         else after[k] == if k in updated then synced[k].(toUpdate := false) else synced[k]
  }

  lemma NoReports(cfg: Config, initialSync: bool, links: map<LinkKey, LinkState>, measure: LinkKey -> Measure)
    ensures forall k :: ReportsFor([], k) == []
    ensures forall k :: SyncedBy(cfg, initialSync, Lookup(links, k), ReportsFor([], k), measure(k)) == Lookup(links, k)
  {
  }

  /** The three passes of a sync, at one link. */
  lemma SyncedInSteps(cfg: Config, initialSync: bool, before: map<LinkKey, LinkState>,
                      reported: map<LinkKey, LinkState>, moved: map<LinkKey, LinkState>, after: map<LinkKey, LinkState>,
                      current: set<LinkKey>, refresh: set<LinkKey>, reports: seq<Report>,
                      measure: LinkKey -> Measure, k: LinkKey)
    requires Lookup(reported, k) == SyncedBy(cfg, initialSync, Lookup(before, k), ReportsFor(reports, k), measure(k))
    requires k in current <==> ReportsFor(reports, k) != []
    requires current * before.Keys <= refresh <= current * reported.Keys
    requires Lookup(moved, k) == if k in refresh then Some(Moved(reported[k], measure(k))) else Lookup(reported, k)
    requires Lookup(after, k)
             == if k in moved && k !in current then Some(moved[k].(toRemove := true)) else Lookup(moved, k)
    ensures Lookup(after, k) == Synced(cfg, initialSync, Lookup(before, k), ReportsFor(reports, k), measure(k))
  {
    hide Moved, Created, Flipped;
    if k in refresh && k !in before {
      NewStays(cfg, initialSync, k, ReportsFor(reports, k), measure(k));
    }
  }

  /** What init did to one link: it is the link its reports create, with interfaces. */
  ghost predicate StartedAt(cfg: Config, links: map<LinkKey, LinkState>, reports: seq<Report>,
                            measure: LinkKey -> Measure, k: LinkKey)
  {
    var l := SyncedBy(cfg, false, None, ReportsFor(reports, k), measure(k));
    && (k in links <==> l.Some?)
    && (k in links ==> BuiltFrom(l.value, links[k]))
  }

  /** The links of the first sync have no interfaces yet. */
  lemma FirstSync(cfg: Config, synced: map<LinkKey, LinkState>, reports: seq<Report>, measure: LinkKey -> Measure)
    requires ProperReports(reports)
    requires forall k :: Lookup(synced, k) == Synced(cfg, false, None, ReportsFor(reports, k), measure(k))
    ensures LinksOk(cfg.nodes, synced) && WiresOf(synced) == map[]
    ensures forall k | k in synced :: synced[k].peers == []
  {
    forall k | k in synced
      ensures k == {synced[k].source, synced[k].target} && synced[k].source != synced[k].target
      ensures synced[k].source in cfg.nodes && synced[k].target in cfg.nodes && synced[k].peers == []
    {
      assert Lookup(synced, k) == Synced(cfg, false, None, ReportsFor(reports, k), measure(k));
      ReportsForProper(reports, k);
      ReportsCreate(cfg, false, k, ReportsFor(reports, k), measure(k));
    }
    NoWires(synced);
  }

  lemma Started(cfg: Config, synced: map<LinkKey, LinkState>, links: map<LinkKey, LinkState>,
                reports: seq<Report>, measure: LinkKey -> Measure)
    requires ProperReports(reports)
    requires forall k :: Lookup(synced, k) == Synced(cfg, false, None, ReportsFor(reports, k), measure(k))
    requires links.Keys == synced.Keys && forall k | k in links :: BuiltFrom(synced[k], links[k])
    ensures forall k :: StartedAt(cfg, links, reports, measure, k)
    ensures forall k | k in links :: AtRest(links[k]) <==> links[k].isActive
  {
    forall k
      ensures StartedAt(cfg, links, reports, measure, k)
      ensures k in links ==> (AtRest(links[k]) <==> links[k].isActive)
    {
      ReportsForProper(reports, k);
      ReportsCreate(cfg, false, k, ReportsFor(reports, k), measure(k));
      assert Lookup(synced, k) == Synced(cfg, false, None, ReportsFor(reports, k), measure(k));
    }
  }

  lemma Launched(cfg: Config, links: map<LinkKey, LinkState>, veths: map<LinkKey, Qos>)
    requires veths == map k | k in links && links[k].isActive :: PushedFor(cfg, links[k])
    ensures Emulates(cfg, links, veths)
  {
  }

  lemma UpdatedEvery(cfg: Config, before: map<LinkKey, LinkState>, synced: map<LinkKey, LinkState>,
                     added: set<LinkKey>, updated: set<LinkKey>, removed: set<LinkKey>,
                     reports: seq<Report>, measure: LinkKey -> Measure)
    requires SyncedAll(cfg, before, synced, reports, measure) && Marked(synced, added, updated, removed)
    ensures forall k :: UpdatedAt(cfg, before, updated, reports, measure, k)
  {
    forall k ensures UpdatedAt(cfg, before, updated, reports, measure, k) {
      assert Lookup(synced, k) == Synced(cfg, true, Lookup(before, k), ReportsFor(reports, k), measure(k));
    }
  }

  lemma TickedEvery(cfg: Config, before: map<LinkKey, LinkState>, synced: map<LinkKey, LinkState>,
                    after: map<LinkKey, LinkState>, added: set<LinkKey>, updated: set<LinkKey>, removed: set<LinkKey>,
                    reports: seq<Report>, measure: LinkKey -> Measure)
    requires SyncedAll(cfg, before, synced, reports, measure) && Marked(synced, added, updated, removed)
    requires Applied(synced, after, added, updated, removed)
    ensures forall k :: TickedAt(cfg, before, after, added, removed, reports, measure, k)
  {
    forall k ensures TickedAt(cfg, before, after, added, removed, reports, measure, k) {
      assert Lookup(synced, k) == Synced(cfg, true, Lookup(before, k), ReportsFor(reports, k), measure(k));
    }
  }

  lemma NothingWired(nodes: set<NodeRef>, lists: NodeLists, links: map<LinkKey, LinkState>)
    requires UniqueIds(nodes) && forall n | n in nodes :: n in lists && lists[n] == []
    requires LinksOk(nodes, links) && WiresOf(links) == map[]
    ensures Agree(nodes, links, lists, [])
  {
  }

  lemma NoWires(links: map<LinkKey, LinkState>)
    requires forall k | k in links :: links[k].peers == []
    ensures WiresOf(links) == map[]
  {
  }

  /** The three sets a sync returns. */
  ghost predicate Marked(synced: map<LinkKey, LinkState>, added: set<LinkKey>, updated: set<LinkKey>,
      removed: set<LinkKey>) {
    && removed == (set k | k in synced && synced[k].toRemove)
    && added == (set k | k in synced && !synced[k].toRemove && synced[k].toAdd)
    && updated == (set k | k in synced && !synced[k].toRemove && !synced[k].toAdd && synced[k].toUpdate)
  }

  lemma Partitioned(cfg: Config, before: map<LinkKey, LinkState>, synced: map<LinkKey, LinkState>,
                    added: set<LinkKey>, updated: set<LinkKey>, removed: set<LinkKey>)
    requires Marked(synced, added, updated, removed)
    requires forall k :: SyncKept(cfg, k, Lookup(before, k), Lookup(synced, k))
    ensures removed <= synced.Keys
    ensures added <= (synced - removed).Keys && updated <= (synced - removed).Keys && updated !! added
    ensures forall k | k in added :: (synced - removed)[k].peers == []
  {
    forall k | k in added ensures (synced - removed)[k].peers == [] {
      assert SyncKept(cfg, k, Lookup(before, k), Lookup(synced, k));
    }
  }

  /** After both halves, every link is at rest and the emulator agrees with it. */
  lemma TickSettles(cfg: Config, before: map<LinkKey, LinkState>, synced: map<LinkKey, LinkState>,
                    after: map<LinkKey, LinkState>, pairs: map<LinkKey, Qos>, veths: map<LinkKey, Qos>,
                    added: set<LinkKey>, updated: set<LinkKey>, removed: set<LinkKey>)
    requires Marked(synced, added, updated, removed) && Emulates(cfg, before, pairs)
    requires forall k | k in before :: AtRest(before[k])
    requires forall k :: SyncKept(cfg, k, Lookup(before, k), Lookup(synced, k))
    requires Applied(synced, after, added, updated, removed)
    requires veths.Keys == (pairs.Keys - removed) + added
    requires forall k | k in veths ::
               veths[k] == if k in updated || k !in pairs then PushedFor(cfg, synced[k]) else pairs[k]
    ensures Emulates(cfg, after, veths) && forall k | k in after :: AtRest(after[k])
  {
    forall k
      ensures k in veths <==> k in after && after[k].isActive
      ensures k in veths ==> veths[k] == PushedFor(cfg, after[k])
      ensures k in after ==> AtRest(after[k])
    {
      assert SyncKept(cfg, k, Lookup(before, k), Lookup(synced, k));
    }
  }

  /** What a tick did to one link. */
  ghost predicate TickedAt(cfg: Config, before: map<LinkKey, LinkState>, after: map<LinkKey, LinkState>,
                           added: set<LinkKey>, removed: set<LinkKey>, reports: seq<Report>,
                           measure: LinkKey -> Measure, k: LinkKey)
  {
    var l := Synced(cfg, true, Lookup(before, k), ReportsFor(reports, k), measure(k));
    && (k in removed <==> l.Some? && l.value.toRemove)
    && (k in added <==> l.Some? && !l.value.toRemove && l.value.toAdd)
    && (k in after <==> l.Some? && !l.value.toRemove)
    && (k in after ==> if l.value.toAdd then BuiltFrom(l.value, after[k])
                       else after[k] == l.value.(toUpdate := false))
  }

  /** The links a tick only updates. */
  ghost predicate UpdatedAt(cfg: Config, before: map<LinkKey, LinkState>, updated: set<LinkKey>, reports: seq<Report>,
                            measure: LinkKey -> Measure, k: LinkKey)
  {
    var l := Synced(cfg, true, Lookup(before, k), ReportsFor(reports, k), measure(k));
    k in updated <==> l.Some? && !l.value.toRemove && !l.value.toAdd && l.value.toUpdate
  }

  lemma DropLinks(nodes: set<NodeRef>, links: map<LinkKey, LinkState>, gone: set<LinkKey>)
    requires LinksOk(nodes, links)
    ensures LinksOk(nodes, links - gone) && WiresOf(links - gone) == WiresOf(links) - gone
  {
  }

  lemma LookupsSame(before: map<LinkKey, LinkState>, after: map<LinkKey, LinkState>, updated: set<LinkKey>)
    requires updated <= before.Keys
    requires forall k ::
               Lookup(after, k) == if k in updated then Some(before[k].(toUpdate := false)) else Lookup(before, k)
    ensures after.Keys == before.Keys
    ensures forall k | k in after :: after[k] == if k in updated then before[k].(toUpdate := false) else before[k]
  {
    forall k ensures k in after <==> k in before {
      assert Lookup(after, k) == if k in updated then Some(before[k].(toUpdate := false)) else Lookup(before, k);
    }
    forall k | k in after ensures after[k] == if k in updated then before[k].(toUpdate := false) else before[k] {
      assert Lookup(after, k) == if k in updated then Some(before[k].(toUpdate := false)) else Lookup(before, k);
    }
  }

  lemma SamePeers(nodes: set<NodeRef>, before: map<LinkKey, LinkState>, after: map<LinkKey, LinkState>)
    requires LinksOk(nodes, before) && before.Keys == after.Keys
    requires forall k | k in after :: after[k] == before[k] || after[k] == before[k].(toUpdate := false)
    ensures LinksOk(nodes, after) && WiresOf(after) == WiresOf(before)
  {
  }

  /** A link has two different ends. */
  predicate ProperReports(reports: seq<Report>) {
    forall i | 0 <= i < |reports| && KeyOfReport(reports[i]).Some? :: reports[i].source != reports[i].target
  }

  lemma {:induction false} ReportsForProper(reports: seq<Report>, k: LinkKey)
    requires ProperReports(reports)
    ensures forall r | r in ReportsFor(reports, k) :: r.source != r.target
  {
    if reports != [] {
      ReportsForProper(reports[..|reports| - 1], k);
    }
  }

  /** No wired link is reported inactive and active again within one sync. */
  ghost predicate NoQuarrel(links: map<LinkKey, LinkState>, reports: seq<Report>) {
    forall k | k in links :: !Quarrels(links[k], ReportsFor(reports, k))
  }

  ghost predicate SyncedAll(cfg: Config, before: map<LinkKey, LinkState>, after: map<LinkKey, LinkState>,
                            reports: seq<Report>, measure: LinkKey -> Measure)
  {
    forall k :: Lookup(after, k) == Synced(cfg, true, Lookup(before, k), ReportsFor(reports, k), measure(k))
  }

  /** The values a launcher pushes are computed from. */
  predicate SameValues(a: LinkState, b: LinkState) {
    a.kind == b.kind && a.delay == b.delay && a.capacity1 == b.capacity1 && a.capacity2 == b.capacity2
  }

  /** What a sync keeps of one link at rest. */
  ghost predicate SyncKept(cfg: Config, k: LinkKey, old': Option<LinkState>, new': Option<LinkState>) {
    && (new'.Some? ==>
          var l := new'.value;
          && k == {l.source, l.target} && l.source != l.target && l.source in cfg.nodes && l.target in cfg.nodes
          && l.peers == (if old'.Some? then old'.value.peers else [])
          && (!l.toRemove ==>
                if l.toAdd then l.isActive && l.peers == [] else (l.isActive <==> l.peers != [])))
    && (old'.Some? ==>
          && new'.Some? && new'.value.kind == old'.value.kind
          && new'.value.source == old'.value.source && new'.value.target == old'.value.target
          && (!new'.value.toUpdate ==> SameValues(new'.value, old'.value)))
    && (old'.None? && new'.Some? ==> !new'.value.toUpdate)
  }

  lemma SyncKeepsLink(cfg: Config, k: LinkKey, old': Option<LinkState>, reps: seq<Report>, m: Measure)
    requires forall r | r in reps :: KeyOfReport(r) == Some(k) && r.source != r.target
    requires old'.Some? ==>
               var l := old'.value;
               && AtRest(l) && !Quarrels(l, reps) && k == {l.source, l.target} && l.source != l.target
               && l.source in cfg.nodes && l.target in cfg.nodes
    ensures SyncKept(cfg, k, old', Synced(cfg, true, old', reps, m))
  {
    SyncedCases(cfg, k, old', reps, m);
    if old'.Some? {
      ReportsFlip(cfg, true, old'.value, reps, m);
      MovedMarksChanges(SyncedBy(cfg, true, old', reps, m).value, m, 0);
    } else {
      ReportsCreate(cfg, true, k, reps, m);
    }
  }

  /** A sync keeps every link's interfaces and stores new links under their own ends. */
  lemma AfterSync(cfg: Config, before: map<LinkKey, LinkState>, after: map<LinkKey, LinkState>,
                  reports: seq<Report>, measure: LinkKey -> Measure)
    requires SyncedAll(cfg, before, after, reports, measure) && ProperReports(reports)
    requires LinksOk(cfg.nodes, before) && forall k | k in before :: AtRest(before[k])
    requires NoQuarrel(before, reports)
    ensures LinksOk(cfg.nodes, after) && WiresOf(after) == WiresOf(before)
    ensures forall k :: SyncKept(cfg, k, Lookup(before, k), Lookup(after, k))
  {
    forall k ensures SyncKept(cfg, k, Lookup(before, k), Lookup(after, k)) {
      ReportsForProper(reports, k);
      SyncKeepsLink(cfg, k, Lookup(before, k), ReportsFor(reports, k), measure(k));
    }
    KeptLinksOk(cfg, before, after);
  }

  lemma KeptLinksOk(cfg: Config, before: map<LinkKey, LinkState>, after: map<LinkKey, LinkState>)
    requires LinksOk(cfg.nodes, before)
    requires forall k :: SyncKept(cfg, k, Lookup(before, k), Lookup(after, k))
    ensures LinksOk(cfg.nodes, after) && WiresOf(after) == WiresOf(before)
  {
    forall k | k in after
      ensures k == {after[k].source, after[k].target} && after[k].source != after[k].target
      ensures after[k].source in cfg.nodes && after[k].target in cfg.nodes
      ensures after[k].peers == (if k in before then before[k].peers else [])
      ensures after[k].peers == [] || WiredPair(after[k].source, after[k].target, after[k].peers)
    {
      assert SyncKept(cfg, k, Lookup(before, k), Lookup(after, k));
    }
    forall k | k in before ensures k in after {
      assert SyncKept(cfg, k, Lookup(before, k), Lookup(after, k));
    }
  }

  /** The link got a pair of interfaces and lost its mark; nothing else of it changed. */
  predicate BuiltFrom(before: LinkState, after: LinkState) {
    after.peers != [] && after == before.(toAdd := false, peers := after.peers)
  }

  lemma OwnEnds(nodes: set<NodeRef>, links: map<LinkKey, LinkState>, lists: NodeLists, interfaces: seq<Interface>,
                k: LinkKey)
    requires Agree(nodes, links, lists, interfaces) && k in links
    ensures links[k].source in lists && links[k].target in lists && links[k].source != links[k].target
    ensures links[k].peers != [] ==> |links[k].peers| == 2
  {
    hide GlobalMatch, WiresOf, UniqueIds;
  }

  /** A link has one pair at most where everything agrees. */
  lemma TwoPairs(nodes: set<NodeRef>, links: map<LinkKey, LinkState>, lists: NodeLists, interfaces: seq<Interface>,
                 k: LinkKey)
    requires k in links && |links[k].peers| > 2
    ensures !Agree(nodes, links, lists, interfaces)
  {
    hide GlobalMatch, WiresOf, UniqueIds, ListsMatch;
  }

  lemma BuildOne(nodes: set<NodeRef>, links: map<LinkKey, LinkState>, lists: NodeLists, interfaces: seq<Interface>,
                 k: LinkKey, p: seq<Interface>)
    requires Agree(nodes, links, lists, interfaces) && k in links && links[k].peers == []
    requires WiredPair(links[k].source, links[k].target, p)
    ensures var l := links[k];
            Agree(nodes, links[k := l.(toAdd := false, peers := l.peers + p)],
                  lists[l.source := lists[l.source] + [p[0]]][l.target := lists[l.target] + [p[1]]], interfaces + p)
  {
    hide ListsMatch, GlobalMatch, UniqueIds, WiresOk;
    var l := links[k];
    assert l.peers + p == p;
    DropNone(WiresOf(links));
    WiresAreOk(nodes, links, {});
    WithLink(nodes, WiresOf(links), lists, interfaces, l.source, l.target, p);
    assert WiresOf(links[k := l.(toAdd := false, peers := p)]) == WiresOf(links)[k := p];
  }

  lemma CleanupOne(nodes: set<NodeRef>, links: map<LinkKey, LinkState>, interfaces: seq<Interface>, k: LinkKey)
    requires UniqueIds(nodes) && LinksOk(nodes, links) && GlobalMatch(WiresOf(links), interfaces) && k in links
    ensures LinksOk(nodes, links - {k}) && GlobalMatch(WiresOf(links - {k}), WithoutNames(interfaces, links[k].peers))
  {
    DropLinks(nodes, links, {k});
    WiredPeers(links, k);
    hide UniqueIds, LinksOk, GlobalMatch, WiresOf, WiresOk;
    DropNone(WiresOf(links));
    WiresAreOk(nodes, links, {});
    GlobalWithoutLink(nodes, WiresOf(links), interfaces, k, links[k].peers);
  }

  lemma WiredPeers(links: map<LinkKey, LinkState>, k: LinkKey)
    requires k in links
    ensures var w := WiresOf(links); if k in w then links[k].peers == w[k] else links[k].peers == []
  {
  }

  lemma DropNone(w: Wires)
    ensures w - {} == w
  {
  }

  lemma DropOneMore(w: Wires, done: set<LinkKey>, k: LinkKey)
    ensures (w - done) - {k} == w - (done + {k})
  {
  }

  lemma LinkWires(nodes: set<NodeRef>, links: map<LinkKey, LinkState>, done: set<LinkKey>, k: LinkKey)
    requires LinksOk(nodes, links) && k in links && k !in done
    ensures var l := links[k];
            && k == {l.source, l.target} && l.source in nodes && l.target in nodes && l.source != l.target
            && (k in WiresOf(links) - done ==> WiredPair(l.source, l.target, (WiresOf(links) - done)[k]))
  {
  }

  lemma WiresAreOk(nodes: set<NodeRef>, links: map<LinkKey, LinkState>, gone: set<LinkKey>)
    requires LinksOk(nodes, links)
    ensures WiresOk(nodes, WiresOf(links) - gone)
  {
    var w := WiresOf(links) - gone;
    forall k | k in w ensures PairOk(nodes, k, w[k]) {
      assert WiredPair(links[k].source, links[k].target, links[k].peers);
    }
  }

  // ---- What a tick and a start come to, said of the reports ----

  /** The list has one interface of the link, and once. */
  ghost predicate OnlyOf(list: seq<Interface>, k: LinkKey, x: Interface) {
    NoDup(list) && forall i :: i in list && KeyOf(i) == k <==> i == x
  }

  /** One pair of interfaces, each the other's peer: one in the list of either end, both in the global list. */
  ghost predicate WiredOnce(lists: NodeLists, interfaces: seq<Interface>, s: NodeRef, t: NodeRef) {
    && s in lists && t in lists && NoDup(interfaces)
    && exists a, b ::
         && WiredPair(s, t, [a, b]) && OnlyOf(lists[s], {s, t}, a) && OnlyOf(lists[t], {s, t}, b)
         && forall i :: i in interfaces && KeyOf(i) == {s, t} <==> i == a || i == b
  }

  ghost predicate Unwired(nodes: set<NodeRef>, lists: NodeLists, interfaces: seq<Interface>, k: LinkKey) {
    && (forall n | n in nodes :: n in lists && forall i | i in lists[n] :: KeyOf(i) != k)
    && forall i | i in interfaces :: KeyOf(i) != k
  }

  lemma WiresAt(nodes: set<NodeRef>, links: map<LinkKey, LinkState>, lists: NodeLists, interfaces: seq<Interface>,
                k: LinkKey)
    requires Agree(nodes, links, lists, interfaces)
    ensures k in links && links[k].peers != [] ==> WiredOnce(lists, interfaces, links[k].source, links[k].target)
    ensures !(k in links && links[k].peers != []) ==> Unwired(nodes, lists, interfaces, k)
  {
    var w := WiresOf(links);
    assert k in w <==> k in links && links[k].peers != [];
    if k in w {
      var l := links[k];
      var s, t, p := l.source, l.target, l.peers;
      assert WiredPair(s, t, p) && k == {s, t} && s in nodes && t in nodes && w[k] == p;
      hide LinksOk, WiresOf, UniqueIds;
      assert p == [p[0], p[1]];
      forall i ensures Wired(w, i) && KeyOf(i) == k <==> i == p[0] || i == p[1] {
        assert KeyOf(p[0]) == k && KeyOf(p[1]) == k;
      }
      assert ListMatches(w, s, lists[s]) && ListMatches(w, t, lists[t]);
      assert OnlyOf(lists[s], {s, t}, p[0]) && OnlyOf(lists[t], {s, t}, p[1]);
    }
  }

  /** What is pushed for a link: its delay, but at least a millisecond, and for each end that end's own capacity, or
      the fallback of the link's kind where it has none. */
  predicate Pushes(cfg: Config, l: LinkState, q: Qos) {
    && q.delay >= 1 && q.delay >= l.delay && (q.delay == 1 || q.delay == l.delay)
    && (if l.capacity1 > 0 then q.rate1 == l.capacity1 else q.rate1 == cfg.fallbackOf(l.kind))
    && (if l.capacity2 > 0 then q.rate2 == l.capacity2 else q.rate2 == cfg.fallbackOf(l.kind))
  }

  lemma PushedExact(cfg: Config, l: LinkState, q: Qos)
    ensures PushedFor(cfg, l) == q <==> Pushes(cfg, l, q)
  {
  }

  function WasActive(links: map<LinkKey, LinkState>, k: LinkKey): Option<bool> {
    if k in links then Some(links[k].isActive) else None
  }

  /** A tick, at one link: the reports say whether it is there and whether it is active, it is made of its first
      report or has moved, and exactly the active links have a pair in the emulator, with their values, and one
      pair of interfaces. */
  ghost predicate TickOutcome(cfg: Config, before: map<LinkKey, LinkState>, after: map<LinkKey, LinkState>,
                              lists: NodeLists, interfaces: seq<Interface>, veths: map<LinkKey, Qos>,
                              reports: seq<Report>, measure: LinkKey -> Measure, k: LinkKey)
  {
    && (k in after <==> Kept(cfg, WasActive(before, k), reports, k))
    && (k in after ==>
          && (after[k].isActive <==> Active(k in before, reports, k))
          && if k in before then MovedFrom(before[k], measure(k), after[k])
             else MadeFirst(cfg, reports, k, measure(k), after[k]))
    && (k in veths <==> k in after && after[k].isActive)
    && (if k in after && after[k].isActive
        then Pushes(cfg, after[k], veths[k]) && WiredOnce(lists, interfaces, after[k].source, after[k].target)
        else Unwired(cfg.nodes, lists, interfaces, k))
  }

  lemma OutcomeAt(cfg: Config, before: map<LinkKey, LinkState>, after: map<LinkKey, LinkState>, lists: NodeLists,
                  interfaces: seq<Interface>, veths: map<LinkKey, Qos>, added: set<LinkKey>, removed: set<LinkKey>,
                  reports: seq<Report>, measure: LinkKey -> Measure, k: LinkKey)
    requires TickedAt(cfg, before, after, added, removed, reports, measure, k) && (k in before ==> AtRest(before[k]))
    requires Agree(cfg.nodes, after, lists, interfaces) && Emulates(cfg, after, veths)
    requires k in after ==> AtRest(after[k])
    ensures TickOutcome(cfg, before, after, lists, interfaces, veths, reports, measure, k)
  {
    hide Agree, WiredOnce, Unwired, Active, Kept, MadeFirst, Synced, PushedFor, Pushes;
    SyncOutcome(cfg, Lookup(before, k), reports, k, measure(k));
    WiresAt(cfg.nodes, after, lists, interfaces, k);
    if k in veths {
      PushedExact(cfg, after[k], veths[k]);
    }
    if k in after {
      SameMaking(cfg, Lookup(before, k), reports, k, measure(k),
                 Synced(cfg, true, Lookup(before, k), ReportsFor(reports, k), measure(k)).value, after[k]);
    }
  }

  lemma OutcomeEvery(cfg: Config, before: map<LinkKey, LinkState>, after: map<LinkKey, LinkState>, lists: NodeLists,
                     interfaces: seq<Interface>, veths: map<LinkKey, Qos>, added: set<LinkKey>,
                     removed: set<LinkKey>, reports: seq<Report>, measure: LinkKey -> Measure)
    requires forall k :: TickedAt(cfg, before, after, added, removed, reports, measure, k)
    requires (forall k | k in before :: AtRest(before[k])) && forall k | k in after :: AtRest(after[k])
    requires Agree(cfg.nodes, after, lists, interfaces) && Emulates(cfg, after, veths)
    ensures forall k :: TickOutcome(cfg, before, after, lists, interfaces, veths, reports, measure, k)
  {
    hide *;
    forall k ensures TickOutcome(cfg, before, after, lists, interfaces, veths, reports, measure, k) {
      OutcomeAt(cfg, before, after, lists, interfaces, veths, added, removed, reports, measure, k);
    }
  }

  /** Marks and interfaces are not what a link is made of. */
  lemma SameMaking(cfg: Config, old': Option<LinkState>, reports: seq<Report>, k: LinkKey, m: Measure, l: LinkState,
                   l': LinkState)
    requires l' == l.(toAdd := l'.toAdd, toUpdate := l'.toUpdate, peers := l'.peers)
    ensures MadeFirst(cfg, reports, k, m, l) ==> MadeFirst(cfg, reports, k, m, l')
    ensures old'.Some? && MovedFrom(old'.value, m, l) ==> MovedFrom(old'.value, m, l')
  {
    if MadeFirst(cfg, reports, k, m, l) {
      var i: nat :| FirstOf(reports, k, i) && MadeFrom(cfg, reports[i], m, l);
      assert MadeFrom(cfg, reports[i], m, l');
    }
  }

  /** A link that was unknown and is reported once: between known nodes it is there, and active exactly if the report
      says that it is not disabled. */
  lemma NewLinkOnce(cfg: Config, before: map<LinkKey, LinkState>, after: map<LinkKey, LinkState>, lists: NodeLists,
                    interfaces: seq<Interface>, veths: map<LinkKey, Qos>, reports: seq<Report>,
                    measure: LinkKey -> Measure, k: LinkKey, i: nat)
    requires TickOutcome(cfg, before, after, lists, interfaces, veths, reports, measure, k)
    requires k !in before && FirstOf(reports, k, i) && LastOf(reports, k, i)
    ensures k in after <==> k <= cfg.nodes
    ensures k in veths <==> k <= cfg.nodes && reports[i].disabled == Some(false)
    ensures k in veths ==> WiredOnce(lists, interfaces, after[k].source, after[k].target)
    ensures k in after ==> (after[k].isActive <==> k in veths) && MadeFrom(cfg, reports[i], measure(k), after[k])
  {
    forall j: nat | LastOf(reports, k, j) || FirstOf(reports, k, j) || (j < |reports| && Of(reports[j], k))
      ensures j == i
    {
    }
    assert Active(false, reports, k) <==> Says(false, reports, k, i);
    hide WiredOnce, Unwired;
  }

  /** The start, at one link: every link that is reported between known nodes is there, and has interfaces; exactly the
      active ones have a pair in the emulator. */
  ghost predicate StartOutcome(cfg: Config, after: map<LinkKey, LinkState>, lists: NodeLists,
                               interfaces: seq<Interface>, veths: map<LinkKey, Qos>, reports: seq<Report>,
                               measure: LinkKey -> Measure, k: LinkKey)
  {
    && (k in after <==> Reported(reports, k) && k <= cfg.nodes)
    && (k in after ==>
          && (after[k].isActive <==> Active(false, reports, k)) && MadeFirst(cfg, reports, k, measure(k), after[k])
          && WiredOnce(lists, interfaces, after[k].source, after[k].target))
    && (k !in after ==> Unwired(cfg.nodes, lists, interfaces, k))
    && (k in veths <==> k in after && after[k].isActive)
    && (k in veths ==> Pushes(cfg, after[k], veths[k]))
  }

  lemma StartOutcomeAt(cfg: Config, after: map<LinkKey, LinkState>, lists: NodeLists, interfaces: seq<Interface>,
                       veths: map<LinkKey, Qos>, reports: seq<Report>, measure: LinkKey -> Measure, k: LinkKey)
    requires StartedAt(cfg, after, reports, measure, k)
    requires Agree(cfg.nodes, after, lists, interfaces) && Emulates(cfg, after, veths)
    ensures StartOutcome(cfg, after, lists, interfaces, veths, reports, measure, k)
  {
    NewLinkOf(cfg, false, reports, k, measure(k));
    hide Agree, WiredOnce, Unwired, Active, Kept, MadeFirst, SyncedBy, PushedFor, Pushes;
    WiresAt(cfg.nodes, after, lists, interfaces, k);
    if k in veths {
      PushedExact(cfg, after[k], veths[k]);
    }
    if k in after {
      SameMaking(cfg, None, reports, k, measure(k),
                 SyncedBy(cfg, false, None, ReportsFor(reports, k), measure(k)).value, after[k]);
    }
  }

  /** A tick passes a link by: it was there, unmarked, and is as active, as far and as fast as before; or it was not
      there, and is not reported between known nodes, or only as one that is not active. */
  ghost predicate PassedBy(cfg: Config, before: map<LinkKey, LinkState>, after: map<LinkKey, LinkState>,
                           reports: seq<Report>, k: LinkKey)
  {
    if k in before then
      && k in after && !before[k].toUpdate && after[k].isActive == before[k].isActive
      && after[k].delay == before[k].delay && after[k].capacity1 == before[k].capacity1
      && after[k].capacity2 == before[k].capacity2
    else !Reported(reports, k) || !(k <= cfg.nodes) || (k in after && !after[k].isActive)
  }

  /** Those are exactly the links a tick neither adds nor updates nor removes. */
  lemma PassedByExact(cfg: Config, before: map<LinkKey, LinkState>, after: map<LinkKey, LinkState>,
                      added: set<LinkKey>, updated: set<LinkKey>, removed: set<LinkKey>, reports: seq<Report>,
                      measure: LinkKey -> Measure, k: LinkKey)
    requires TickedAt(cfg, before, after, added, removed, reports, measure, k)
    requires UpdatedAt(cfg, before, updated, reports, measure, k)
    requires k in before ==> AtRest(before[k]) && !Quarrels(before[k], ReportsFor(reports, k))
    ensures PassedBy(cfg, before, after, reports, k) <==> k !in added && k !in updated && k !in removed
  {
    if k in before {
      KnownPassedBy(cfg, before[k], reports, k, measure(k));
    } else {
      AnyReport(reports, k);
      NewLinkOf(cfg, true, reports, k, measure(k));
      hide AllSay, Reported, Active, MadeFirst, SyncedBy, ReportsFor;
    }
  }

  lemma KnownPassedBy(cfg: Config, l: LinkState, reports: seq<Report>, k: LinkKey, m: Measure)
    requires AtRest(l) && !Quarrels(l, ReportsFor(reports, k))
    ensures var l' := Synced(cfg, true, Some(l), ReportsFor(reports, k), m);
            && l'.Some?
            && (!l'.value.toRemove && !l'.value.toAdd && !l'.value.toUpdate
                <==> && !l'.value.toRemove && !l.toUpdate
                     && l'.value.isActive == l.isActive && l'.value.delay == l.delay
                     && l'.value.capacity1 == l.capacity1 && l'.value.capacity2 == l.capacity2)
  {
    var reps := ReportsFor(reports, k);
    ReportsFlip(cfg, true, l, reps, m);
    var made := SyncedBy(cfg, true, Some(l), reps, m).value;
    MarkedExact(made, m);
    MovedMarksChanges(made, m, 0);
    SameTermsMoved(made, m);
    hide Moved, SyncedBy;
  }

  lemma SameTermsMoved(l: LinkState, m: Measure)
    ensures Moved(l, m).toAdd == l.toAdd && Moved(l, m).toRemove == l.toRemove
  {
  }

  // ---- What the tick relies on ----

  /** A link that init wired while inactive is marked for addition while it still has its pair exactly when the
      last report of it in a tick says that it is active. What BuildInterfaces makes of it is two pairs, and the
      lists do not agree any more. */
  lemma InactiveAtInitDoubles(cfg: Config, l: LinkState, reps: seq<Report>, m: Measure)
    requires !l.isActive && !l.toAdd && !l.toRemove && l.peers != []
    requires forall r | r in reps :: KeyOfReport(r).Some?
    ensures var l' := Synced(cfg, true, Some(l), reps, m);
            && l'.Some? && l'.value.peers == l.peers
            && (l'.value.toAdd && !l'.value.toRemove <==> reps != [] && ReportedActive(reps[|reps| - 1]))
  {
    ReportsFlip(cfg, true, l, reps, m);
  }

  // ---- The routing graph ----

  /** get_current_graph keeps a reported edge that is not disabled and has no link or an active one. */
  predicate Routable(r: Report, links: map<LinkKey, LinkState>, k: LinkKey) {
    !GetOr(r.disabled, false) && (k !in links || links[k].isActive)
  }

  /** A link reported active is not also disabled, and one that is reported no longer active is. */
  predicate Consonant(old': Option<LinkState>, r: Report) {
    old'.Some? ==>
      if ReportedActive(r) then !GetOr(r.disabled, false) else old'.value.isActive ==> GetOr(r.disabled, false)
  }

  /** The edges of the routing graph are the active links, edge by edge, exactly when the report's two attributes
      are in accord. */
  lemma EdgeIsActiveLink(cfg: Config, before: map<LinkKey, LinkState>, after: map<LinkKey, LinkState>,
                         added: set<LinkKey>, removed: set<LinkKey>, reports: seq<Report>,
                         measure: LinkKey -> Measure, k: LinkKey, r: Report)
    requires TickedAt(cfg, before, after, added, removed, reports, measure, k)
    requires k in before ==> AtRest(before[k])
    requires ReportsFor(reports, k) == [r] && k <= cfg.nodes
    ensures (Routable(r, after, k) <==> k in after && after[k].isActive) <==> Consonant(Lookup(before, k), r)
  {
    assert r in ReportsFor(reports, k);
    assert k == {r.source.value.node, r.target.value.node};
    assert [r][..0] == [];
    assert SyncedBy(cfg, true, Lookup(before, k), [r][..0], measure(k)) == Lookup(before, k);
  }

  /** An active link after the tick was reported in it. */
  lemma ActiveLinkIsReported(cfg: Config, before: map<LinkKey, LinkState>, after: map<LinkKey, LinkState>,
                             added: set<LinkKey>, removed: set<LinkKey>, reports: seq<Report>,
                             measure: LinkKey -> Measure, k: LinkKey)
    requires TickedAt(cfg, before, after, added, removed, reports, measure, k) && k in after
    ensures ReportsFor(reports, k) != []
  {
  }

  /** Attributes that agree, or a missing is_active, meet the condition. */
  lemma AgreeingAttributes(old': Option<LinkState>, r: Report)
    requires r.isActive.None? || (r.disabled.Some? && r.isActive.value == !r.disabled.value)
    ensures Consonant(old', r)
  {
  }
}

/** What a tick means for one node's devices, as the static routing model takes it. */
module TickDevices {
  import opened Wrappers
  import opened Nodes
  import opened Links
  import opened LinkSync
  import opened Wiring
  import opened Reconcile
  import R = RoutingEntries
  import NR = NodeRouting

  /** The ids of the peers a node has a device to. */
  function DevicePeers(nodes: set<NodeRef>, links: map<LinkKey, LinkState>, n: NodeRef): set<nat> {
    set p | p in nodes && p != n && {n, p} in links && links[{n, p}].peers != [] :: p.id
  }

  function PeersAmong(nodes: set<NodeRef>, keys: set<LinkKey>, n: NodeRef): set<nat> {
    set p | p in nodes && p != n && {n, p} in keys :: p.id
  }

  /** Devices a tick takes from a node: those of removed links that were wired. */
  function GoneDevices(nodes: set<NodeRef>, before: map<LinkKey, LinkState>, removed: set<LinkKey>,
      n: NodeRef): set<nat> {
    DevicePeers(nodes, before, n) * PeersAmong(nodes, removed, n)
  }

  ghost predicate TickedAll(cfg: Config, before: map<LinkKey, LinkState>, after: map<LinkKey, LinkState>,
                            added: set<LinkKey>, removed: set<LinkKey>, reports: seq<Report>,
                            measure: LinkKey -> Measure)
  {
    && UniqueIds(cfg.nodes) && ProperReports(reports) && NoQuarrel(before, reports)
    && (forall k | k in before :: AtRest(before[k])) && (forall k | k in after :: AtRest(after[k]))
    && forall k :: TickedAt(cfg, before, after, added, removed, reports, measure, k)
  }

  lemma KeyCases(cfg: Config, before: map<LinkKey, LinkState>, after: map<LinkKey, LinkState>,
                 added: set<LinkKey>, removed: set<LinkKey>, reports: seq<Report>, measure: LinkKey -> Measure,
                 k: LinkKey)
    requires TickedAll(cfg, before, after, added, removed, reports, measure)
    ensures !(k in added && k in removed)
    ensures k in added ==> !(k in before && before[k].peers != []) && k in after && after[k].peers != []
    ensures k !in added ==> ((k in after && after[k].peers != []) <==> (k in before && before[k].peers != []
              && k !in removed))
  {
    assert TickedAt(cfg, before, after, added, removed, reports, measure, k);
    ReportsForProper(reports, k);
    SyncedCases(cfg, k, Lookup(before, k), ReportsFor(reports, k), measure(k));
  }

  lemma PeerKey(nodes: set<NodeRef>, keys: set<LinkKey>, n: NodeRef, p: NodeRef)
    requires UniqueIds(nodes) && p in nodes && p != n
    ensures p.id in PeersAmong(nodes, keys, n) <==> {n, p} in keys
  {
    if p.id in PeersAmong(nodes, keys, n) {
      var q :| q in nodes && q != n && {n, q} in keys && q.id == p.id;
      assert q == p;
    }
  }

  lemma PeerDevice(nodes: set<NodeRef>, links: map<LinkKey, LinkState>, n: NodeRef, p: NodeRef)
    requires UniqueIds(nodes) && p in nodes && p != n
    ensures p.id in DevicePeers(nodes, links, n) <==> {n, p} in links && links[{n, p}].peers != []
  {
    if p.id in DevicePeers(nodes, links, n) {
      var q :| q in nodes && q != n && {n, q} in links && links[{n, q}].peers != [] && q.id == p.id;
      assert q == p;
    }
  }

  /** A tick takes devices a node has, brings devices it did not have, and no device both ways. */
  lemma TickPartitionsDevices(cfg: Config, before: map<LinkKey, LinkState>, after: map<LinkKey, LinkState>,
                              added: set<LinkKey>, removed: set<LinkKey>, reports: seq<Report>,
                              measure: LinkKey -> Measure, n: NodeRef)
    requires TickedAll(cfg, before, after, added, removed, reports, measure)
    ensures var had, gone := DevicePeers(cfg.nodes, before, n), GoneDevices(cfg.nodes, before, removed, n);
            var new' := PeersAmong(cfg.nodes, added, n);
            gone <= had && new' !! had && DevicePeers(cfg.nodes, after, n) == (had - gone) + new'
  {
    var had, gone := DevicePeers(cfg.nodes, before, n), GoneDevices(cfg.nodes, before, removed, n);
    var new' := PeersAmong(cfg.nodes, added, n);
    forall p | p in cfg.nodes && p != n
      ensures p.id in new' ==> p.id !in had
      ensures p.id in DevicePeers(cfg.nodes, after, n) <==> p.id in (had - gone) + new'
    {
      KeyCases(cfg, before, after, added, removed, reports, measure, {n, p});
      PeerKey(cfg.nodes, added, n, p);
      PeerKey(cfg.nodes, removed, n, p);
      PeerDevice(cfg.nodes, before, n, p);
      PeerDevice(cfg.nodes, after, n, p);
    }
  }

  /** When every tick is followed by a build, a tick is a step the routing model allows: the device it
      brings was neither there nor taken in the same tick. */
  lemma TickIsEnabled(cfg: Config, before: map<LinkKey, LinkState>, after: map<LinkKey, LinkState>,
                      added: set<LinkKey>, removed: set<LinkKey>, reports: seq<Report>, measure: LinkKey -> Measure,
                      n: NodeRef, s: NR.State, devices: NR.Devices)
    requires TickedAll(cfg, before, after, added, removed, reports, measure)
    requires s.pending == {} && s.view.ifaces.Keys == DevicePeers(cfg.nodes, before, n)
    requires NR.NamedByPeer(devices) && devices.Keys == PeersAmong(cfg.nodes, added, n)
    ensures var e := NR.Links(GoneDevices(cfg.nodes, before, removed, n), devices);
            && NR.Enabled(s, e)
            && NR.LinksChanged(s.view, e.gone, e.added).ifaces.Keys == DevicePeers(cfg.nodes, after, n)
  {
    TickPartitionsDevices(cfg, before, after, added, removed, reports, measure, n);
  }
}

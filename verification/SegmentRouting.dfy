/** Labels of the segment routing daemon (satgonetem/routing/srmpls_daemon.py:30-330,
    satgonetem/models/mpls_entry.py:18-62). Labels 0 to 15 are reserved and a label has 20 bits (section 2.1
    of RFC 3032). */
module SegmentRouting {
  import opened Wrappers

  const MPLS_LABEL_MIN: int := 16
  const MPLS_LABEL_MAX: int := 1048575

  predicate Usable(sid: int) {
    MPLS_LABEL_MIN <= sid <= MPLS_LABEL_MAX
  }

  predicate Offers(first: int, last: int, l: int) {
    first <= l <= last && Usable(l)
  }

  /** At least two labels can be used. */
  ghost predicate Spacious(first: int, last: int) {
    exists l, m :: l != m && Offers(first, last, l) && Offers(first, last, m)
  }

  /** A configured label range. */
  class MplsConfig {
    var rangeStart: int
    var rangeEnd: int
    const usePhp: bool
    const nodeSidBase: int

    constructor (rangeStart: int, rangeEnd: int, usePhp: bool, nodeSidBase: int)
      ensures this.rangeStart == rangeStart && this.rangeEnd == rangeEnd
      ensures this.usePhp == usePhp && this.nodeSidBase == nodeSidBase
    {
      this.rangeStart, this.rangeEnd, this.usePhp, this.nodeSidBase := rangeStart, rangeEnd, usePhp, nodeSidBase;
    }

    /** __post_init__: the range keeps exactly its usable labels; it is refused when at most one is left. */
    method PostInit() returns (error: Option<Error>)
      modifies this
      ensures error.None? <==> Spacious(old(rangeStart), old(rangeEnd))
      ensures error.Some? ==> error == Some(ValueError)
      ensures error.None? ==> forall l :: rangeStart <= l <= rangeEnd <==> Offers(old(rangeStart), old(rangeEnd), l)
    {
      if rangeStart < MPLS_LABEL_MIN {
        rangeStart := MPLS_LABEL_MIN;
      }
      if rangeEnd > MPLS_LABEL_MAX {
        rangeEnd := MPLS_LABEL_MAX;
      }
      if rangeStart >= rangeEnd {
        return Some(ValueError);
      }
      assert Offers(old(rangeStart), old(rangeEnd), rangeStart) && Offers(old(rangeStart), old(rangeEnd), rangeEnd);
      return None;
    }
  }

  /** path[1:-1], or path[1:] without penultimate hop popping. */
  function Segments(path: seq<nat>, usePhp: bool): seq<nat> {
    if |path| < 2 then [] else if usePhp then path[1..|path| - 1] else path[1..]
  }

  function Labels(sids: map<nat, nat>, nodes: seq<nat>): (labels: seq<nat>)
    requires forall i | 0 <= i < |nodes| :: nodes[i] in sids
    ensures |labels| == |nodes| && forall i | 0 <= i < |nodes| :: labels[i] == sids[nodes[i]]
  {
    seq(|nodes|, i requires 0 <= i < |nodes| => sids[nodes[i]])
  }

  /** The labels of a path after its first node, first label on top. */
  function StackFor(sids: map<nat, nat>, path: seq<nat>, usePhp: bool): Result<seq<nat>> {
    var nodes := Segments(path, usePhp);
    if forall i | 0 <= i < |nodes| :: nodes[i] in sids then Ok(Labels(sids, nodes)) else Err(ValueError)
  }

  /** Who has which label, and which pairs have a path of their own. */
  class SegmentRoutingManager {
    const nodeSidBase: nat
    var nodeSids: map<nat, nat>
    var reverseSidMap: map<nat, nat>
    var customPaths: map<(nat, nat), seq<nat>>

    constructor (base: int)
      ensures Valid() && nodeSids == map[] && customPaths == map[]
      ensures nodeSidBase == if base < MPLS_LABEL_MIN then MPLS_LABEL_MIN else base
    {
      nodeSidBase := if base < MPLS_LABEL_MIN then MPLS_LABEL_MIN else base;
      nodeSids, reverseSidMap, customPaths := map[], map[], map[];
    }

    /** Every label is usable, no two nodes share one, the reverse map is the inverse, and a stored path joins
        its pair. */
    ghost predicate Valid()
      reads this
    {
      && nodeSidBase >= MPLS_LABEL_MIN
      && (forall n | n in nodeSids :: nodeSids[n] == nodeSidBase + n && Usable(nodeSids[n]))
      && (forall l :: l in reverseSidMap <==> l >= nodeSidBase && l - nodeSidBase in nodeSids)
      && (forall l | l in reverseSidMap :: reverseSidMap[l] == l - nodeSidBase)
      && (forall k | k in customPaths :: Joins(customPaths[k], k.0, k.1))
    }

    predicate Joins(path: seq<nat>, source: nat, dest: nat) {
      |path| >= 2 && path[0] == source && path[|path| - 1] == dest
    }

    method AllocateNodeSid(node: nat) returns (r: Result<nat>)
      requires Valid()
      modifies this`nodeSids, this`reverseSidMap
      ensures Valid()
      ensures r == if nodeSidBase + node <= MPLS_LABEL_MAX then Ok(nodeSidBase + node) else Err(RuntimeError)
      ensures nodeSids == if r.Ok? then old(nodeSids)[node := nodeSidBase + node] else old(nodeSids)
    {
      if node in nodeSids {
        assert nodeSids[node := nodeSids[node]] == nodeSids;
        return Ok(nodeSids[node]);
      }
      var sid := nodeSidBase + node;
      if sid > MPLS_LABEL_MAX {
        return Err(RuntimeError);
      }
      nodeSids := nodeSids[node := sid];
      reverseSidMap := reverseSidMap[sid := node];
      return Ok(sid);
    }

    function NodeSid(node: nat): (sid: Option<nat>)
      requires Valid()
      reads this
      ensures sid.Some? ==> NodeForSid(sid.value) == Some(node)
    {
      if node in nodeSids then Some(nodeSids[node]) else None
    }

    function NodeForSid(sid: nat): (node: Option<nat>)
      requires Valid()
      reads this
      ensures node.Some? ==> node.value in nodeSids && nodeSids[node.value] == sid
      ensures node.None? ==> forall n | n in nodeSids :: nodeSids[n] != sid
    {
      if sid in reverseSidMap then Some(reverseSidMap[sid]) else None
    }

    method SetCustomPath(source: nat, dest: nat, path: seq<nat>) returns (error: Option<Error>)
      requires Valid()
      modifies this`customPaths
      ensures Valid()
      ensures error == if |path| >= 2 && path[0] == source && path[|path| - 1] == dest then None
                       else Some(ValueError)
      ensures customPaths == if error.None? then old(customPaths)[(source, dest) := path] else old(customPaths)
    {
      if |path| < 2 {
        return Some(ValueError);
      }
      if path[0] != source {
        return Some(ValueError);
      }
      if path[|path| - 1] != dest {
        return Some(ValueError);
      }
      customPaths := customPaths[(source, dest) := path];
      return None;
    }

    /** Clearing undoes setting: the pair is back on its shortest path. */
    method ClearCustomPath(source: nat, dest: nat) returns (removed: bool)
      requires Valid()
      modifies this`customPaths
      ensures Valid()
      ensures removed == ((source, dest) in old(customPaths)) && customPaths == old(customPaths) - {(source, dest)}
    {
      removed := (source, dest) in customPaths;
      customPaths := customPaths - {(source, dest)};
    }

    method LabelStackForPath(path: seq<nat>, usePhp: bool) returns (r: Result<seq<nat>>)
      ensures r == StackFor(nodeSids, path, usePhp)
    {
      if |path| < 2 {
        return Ok([]);
      }
      var nodes := Segments(path, usePhp);
      var labels := [];
      for i := 0 to |nodes|
        invariant forall j | 0 <= j < i :: nodes[j] in nodeSids
        invariant |labels| == i && forall j | 0 <= j < i :: labels[j] == nodeSids[nodes[j]]
      {
        if nodes[i] !in nodeSids {
          return Err(ValueError);
        }
        labels := labels + [nodeSids[nodes[i]]];
      }
      assert labels == Labels(nodeSids, nodes);
      return Ok(labels);
    }
  }

  /** What Valid gives to forwarding: a label names one node. */
  predicate Injective(sids: map<nat, nat>) {
    forall m, n | m in sids && n in sids :: sids[m] == sids[n] ==> m == n
  }
}

/** Kernels with label and prefix routes, and what a packet does in them
    (satgonetem/models/mpls_entry.py:64-240). */
module LabelForwarding {
  import opened Wrappers
  import opened SegmentRouting

  datatype Key = ForLabel(sid: nat) | ForAddress(address: string)

  /** Pop and look at the next label here, or pop (for a label) or push (for an address) and send the packet
      over the device of a peer; the device of a peer leads to that peer. */
  datatype Action = Local | Via(peer: nat, nextHop: string, push: seq<nat>)

  datatype Line = Line(key: Key, action: Action)

  type Kernel = map<Key, Action>

  /** "route replace", line by line. */
  function Exec(kernel: Kernel, lines: seq<Line>): Kernel {
    if lines == [] then kernel
    else Exec(kernel, lines[..|lines| - 1])[lines[|lines| - 1].key := lines[|lines| - 1].action]
  }

  predicate Has(kernel: Kernel, line: Line) {
    line.key in kernel && kernel[line.key] == line.action
  }

  predicate Holds(kernel: Kernel, lines: seq<Line>) {
    forall i | 0 <= i < |lines| :: Has(kernel, lines[i])
  }

  /** Where a packet went; it either came to a node with no label left, or found no route on the way. */
  datatype Journey = Journey(visited: seq<nat>, arrived: bool)

  /** The node at which the next label is looked at. */
  function NextNode(net: map<nat, Kernel>, at: nat, sid: nat): Option<nat> {
    if at !in net || ForLabel(sid) !in net[at] then None
    else match net[at][ForLabel(sid)] case Local => Some(at) case Via(peer, _, _) => Some(peer)
  }

  /** A labelled packet: every step pops the top label. */
  function Labelled(net: map<nat, Kernel>, at: nat, stack: seq<nat>): Journey
    decreases |stack|
  {
    if stack == [] then Journey([], true)
    else match NextNode(net, at, stack[0])
      case None => Journey([], false)
      case Some(n) =>
        var rest := Labelled(net, n, stack[1..]);
        Journey([n] + rest.visited, rest.arrived)
  }

  function LastOf(at: nat, visited: seq<nat>): nat {
    if visited == [] then at else visited[|visited| - 1]
  }

  /** An address looked up at one node, then the labels it pushes. */
  function Leg(net: map<nat, Kernel>, at: nat, address: string): Journey {
    if at !in net || ForAddress(address) !in net[at] || net[at][ForAddress(address)].Local? then Journey([], false)
    else
      var hop := net[at][ForAddress(address)];
      var rest := Labelled(net, hop.peer, hop.push);
      Journey([hop.peer] + rest.visited, rest.arrived)
  }

  /** A packet for an address of node d, over at most so many lookups of the address. */
  function Travel(net: map<nat, Kernel>, at: nat, address: string, d: nat, lookups: nat): Journey
    decreases lookups
  {
    if at == d then Journey([], true)
    else if lookups == 0 then Journey([], false)
    else
      var leg := Leg(net, at, address);
      if !leg.arrived then leg
      else
        var rest := Travel(net, LastOf(at, leg.visited), address, d, lookups - 1);
        Journey(leg.visited + rest.visited, rest.arrived)
  }

  /** A label carries a packet from u to v: v repeats u, or u is a satellite with a link to v. */
  predicate Step(peers: map<nat, set<nat>>, u: nat, v: nat) {
    u == v || (u in peers && v in peers[u])
  }

  predicate Followable(peers: map<nat, set<nat>>, at: nat, nodes: seq<nat>)
    decreases |nodes|
  {
    nodes == [] || (Step(peers, at, nodes[0]) && Followable(peers, nodes[0], nodes[1..]))
  }

  /** What the label tables say: a node pops its own label, and a satellite (peers has only satellites) pops
      the label of a linked node and sends the packet there. */
  ghost predicate LabelsInstalled(net: map<nat, Kernel>, sids: map<nat, nat>, peers: map<nat, set<nat>>) {
    && Injective(sids)
    && (forall u | u in sids :: u in net && Has(net[u], Line(ForLabel(sids[u]), Local)))
    && forall u, v | u in peers && v in peers[u] :: v in sids && v != u && NextNode(net, u, sids[v]) == Some(v)
  }

  /** And they say nothing else. */
  ghost predicate NoOtherLabels(net: map<nat, Kernel>, sids: map<nat, nat>, peers: map<nat, set<nat>>) {
    forall u, v | u in net && v in sids && ForLabel(sids[v]) in net[u] :: Step(peers, u, v)
  }

  /** Every path whose steps are links of satellites is followed node by node, whatever nodes it revisits;
      any other stack loses the packet, on a proper prefix of the path. */
  lemma {:induction false} StackIsFollowed(net: map<nat, Kernel>, sids: map<nat, nat>, peers: map<nat, set<nat>>,
                                           at: nat, nodes: seq<nat>)
    requires LabelsInstalled(net, sids, peers)
    requires forall i | 0 <= i < |nodes| :: nodes[i] in sids
    ensures Followable(peers, at, nodes) ==> Labelled(net, at, Labels(sids, nodes)) == Journey(nodes, true)
    ensures NoOtherLabels(net, sids, peers) && !Followable(peers, at, nodes) ==>
              var j := Labelled(net, at, Labels(sids, nodes));
              !j.arrived && j.visited < nodes
    decreases |nodes|
  {
    if nodes != [] {
      StackIsFollowed(net, sids, peers, nodes[0], nodes[1..]);
      assert Labels(sids, nodes)[1..] == Labels(sids, nodes[1..]);
      assert [nodes[0]] + nodes[1..] == nodes;
      if Step(peers, at, nodes[0]) {
        assert NextNode(net, at, sids[nodes[0]]) == Some(nodes[0]);
      }
    }
  }
}

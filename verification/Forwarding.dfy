/** Weighted undirected graphs, the contract of the shortest-path libraries, and next hops that follow from it
    (satgonetem/routing/static_daemon.py:363-373, 513-527). */
module ShortestPaths {
  import opened Wrappers

  /** Edge weights in both directions; the routing graph holds the active links only. */
  type Graph = map<(nat, nat), real>

  ghost predicate WellFormed(g: Graph) {
    forall e | e in g :: (e.1, e.0) in g && g[(e.1, e.0)] == g[e] && g[e] > 0.0
  }

  predicate IsPath(g: Graph, p: seq<nat>) {
    p != [] && forall i | 0 <= i < |p| - 1 :: (p[i], p[i + 1]) in g
  }

  predicate Joins(g: Graph, p: seq<nat>, u: nat, v: nat) {
    IsPath(g, p) && p[0] == u && p[|p| - 1] == v
  }

  function Cost(g: Graph, p: seq<nat>): real
    requires IsPath(g, p)
  {
    if |p| == 1 then 0.0
    else
      assert (p[0], p[1]) in g;
      assert IsPath(g, p[1..]) by {
        forall i | 0 <= i < |p[1..]| - 1 ensures (p[1..][i], p[1..][i + 1]) in g {
          assert (p[i + 1], p[i + 2]) in g;
        }
      }
      g[(p[0], p[1])] + Cost(g, p[1..])
  }

  ghost predicate IsShortest(g: Graph, p: seq<nat>, u: nat, v: nat) {
    && Joins(g, p, u, v)
    && forall q :: Joins(g, q, u, v) ==> Cost(g, p) <= Cost(g, q)
  }

  lemma PathExtends(g: Graph, p: seq<nat>, x: nat)
    requires IsPath(g, p) && (p[|p| - 1], x) in g
    ensures IsPath(g, p + [x])
  {
    var q := p + [x];
    forall i | 0 <= i < |q| - 1 ensures (q[i], q[i + 1]) in g {
      if i < |p| - 1 {
        assert (p[i], p[i + 1]) in g;
      }
    }
  }

  lemma {:induction false} CostExtends(g: Graph, p: seq<nat>, x: nat)
    requires IsPath(g, p) && (p[|p| - 1], x) in g
    ensures IsPath(g, p + [x]) && Cost(g, p + [x]) == Cost(g, p) + g[(p[|p| - 1], x)]
  {
    PathExtends(g, p, x);
    var q := p + [x];
    if |p| == 1 {
      assert q[1..] == [x];
    } else {
      assert q[1..] == p[1..] + [x];
      assert (p[0], p[1]) in g;
      TailIsPath(g, p);
      CostExtends(g, p[1..], x);
    }
  }

  lemma TailIsPath(g: Graph, p: seq<nat>)
    requires IsPath(g, p) && |p| > 1
    ensures IsPath(g, p[1..])
  {
    forall i | 0 <= i < |p| - 2 ensures (p[1..][i], p[1..][i + 1]) in g {
      assert (p[i + 1], p[i + 2]) in g;
    }
  }

  function Reverse(p: seq<nat>): (r: seq<nat>)
    ensures |r| == |p|
    ensures p != [] ==> r[0] == p[|p| - 1] && r[|r| - 1] == p[0]
  {
    if p == [] then [] else Reverse(p[1..]) + [p[0]]
  }

  /** An undirected path costs the same walked backwards. */
  lemma {:induction false} ReverseCost(g: Graph, p: seq<nat>)
    requires WellFormed(g) && IsPath(g, p)
    ensures IsPath(g, Reverse(p)) && Cost(g, Reverse(p)) == Cost(g, p)
  {
    if |p| == 1 {
      assert Reverse(p) == [p[0]] by { assert Reverse(p[1..]) == []; }
    } else {
      TailIsPath(g, p);
      ReverseCost(g, p[1..]);
      assert (p[0], p[1]) in g;
      CostExtends(g, Reverse(p[1..]), p[0]);
    }
  }

  // ---- What the libraries promise ----

  /** igraph: one shortest path per reachable node, listed from dst; nothing usable for the others. */
  ghost predicate PathOracle(g: Graph, dst: nat, paths: map<nat, seq<nat>>) {
    && (forall u | u in paths && paths[u] != [] :: IsShortest(g, paths[u], dst, u))
    && (forall u, q :: Joins(g, q, dst, u) ==> u in paths && paths[u] != [])
  }

  /** networkx: distances of the reachable nodes and, for each, neighbours one edge closer. */
  ghost predicate PredecessorOracle(g: Graph, dst: nat, preds: map<nat, seq<nat>>, dist: map<nat, real>) {
    && (forall u | u in dist :: IsDistance(g, dst, u, dist[u]))
    && (forall u, q :: Joins(g, q, dst, u) ==> u in dist)
    && (forall u | u in dist && u != dst :: u in preds && preds[u] != [])
    && (forall u, i | u in preds && 0 <= i < |preds[u]| && u in dist ::
          (preds[u][i], u) in g && preds[u][i] in dist && dist[u] == dist[preds[u][i]] + g[(preds[u][i], u)])
  }

  ghost predicate IsDistance(g: Graph, dst: nat, u: nat, d: real) {
    exists p :: IsShortest(g, p, dst, u) && Cost(g, p) == d
  }

  // ---- Next hops ----

  /** Distances to dst, and for every other node with one a neighbour exactly one edge closer. */
  ghost predicate Optimal(g: Graph, dst: nat, hop: map<nat, nat>, dist: map<nat, real>) {
    && dst in dist
    && (forall u | u in dist :: IsDistance(g, dst, u, dist[u]))
    && (forall u | u in dist && u != dst ::
          u in hop && hop[u] in dist && (u, hop[u]) in g && dist[u] == dist[hop[u]] + g[(u, hop[u])])
  }

  /** The hop extracted from a path oracle: the node before the last. */
  function PathHops(dst: nat, paths: map<nat, seq<nat>>): map<nat, nat> {
    map u | u in paths && u != dst && |paths[u]| >= 2 :: paths[u][|paths[u]| - 2]
  }

  ghost function PathDistances(g: Graph, dst: nat, paths: map<nat, seq<nat>>): map<nat, real>
    requires PathOracle(g, dst, paths)
  {
    map u | u in paths && paths[u] != [] :: Cost(g, paths[u])
  }

  /** Dropping the last node of a shortest path leaves a shortest path to the node before it. */
  lemma PrefixShortest(g: Graph, p: seq<nat>, dst: nat, u: nat)
    requires WellFormed(g) && IsShortest(g, p, dst, u) && |p| >= 2
    ensures var h := p[|p| - 2];
            && IsShortest(g, p[..|p| - 1], dst, h) && (h, u) in g
            && Cost(g, p) == Cost(g, p[..|p| - 1]) + g[(h, u)]
  {
    var n := |p| - 1;
    var init, h := p[..n], p[n - 1];
    assert (p[n - 1], p[n]) in g;
    assert IsPath(g, init) by {
      forall i | 0 <= i < |init| - 1 ensures (init[i], init[i + 1]) in g { assert (p[i], p[i + 1]) in g; }
    }
    assert p == init + [u];
    CostExtends(g, init, u);
    forall q | Joins(g, q, dst, h) ensures Cost(g, init) <= Cost(g, q) {
      CostExtends(g, q, u);
      assert Joins(g, q + [u], dst, u);
    }
  }

  /** Each returned path being shortest is all that is needed: the trees of different nodes need not agree. */
  lemma IgraphHopsOptimal(g: Graph, dst: nat, paths: map<nat, seq<nat>>)
    requires WellFormed(g) && PathOracle(g, dst, paths)
    ensures Optimal(g, dst, PathHops(dst, paths), PathDistances(g, dst, paths))
  {
    var dist, hop := PathDistances(g, dst, paths), PathHops(dst, paths);
    assert Joins(g, [dst], dst, dst);
    forall u | u in dist ensures IsDistance(g, dst, u, dist[u]) {
      assert IsShortest(g, paths[u], dst, u);
    }
    forall u | u in dist && u != dst
      ensures u in hop && hop[u] in dist && (u, hop[u]) in g && dist[u] == dist[hop[u]] + g[(u, hop[u])]
    {
      var p := paths[u];
      assert |p| >= 2 by { assert p[0] == dst && p[|p| - 1] == u; }
      PrefixShortest(g, p, dst, u);
      var h := hop[u];
      assert Joins(g, p[..|p| - 1], dst, h);
      assert IsShortest(g, paths[h], dst, h);
    }
  }

  /** The hop extracted from a predecessor oracle: the first predecessor. */
  function PredecessorHops(dst: nat, preds: map<nat, seq<nat>>): map<nat, nat> {
    map u | u in preds && u != dst && preds[u] != [] :: preds[u][0]
  }

  lemma NetworkxHopsOptimal(g: Graph, dst: nat, preds: map<nat, seq<nat>>, dist: map<nat, real>)
    requires WellFormed(g) && PredecessorOracle(g, dst, preds, dist)
    ensures Optimal(g, dst, PredecessorHops(dst, preds), dist)
  {
    assert Joins(g, [dst], dst, dst);
    forall u | u in dist && u != dst
      ensures var h := PredecessorHops(dst, preds)[u]; h in dist && (u, h) in g && dist[u] == dist[h] + g[(u, h)]
    {
      assert (preds[u][0], u) in g;
    }
  }

  // ---- Following the hops ----

  function Nearer(dist: map<nat, real>, u: nat): set<nat>
    requires u in dist
  {
    set v | v in dist && dist[v] < dist[u]
  }

  lemma HopIsNearer(g: Graph, dst: nat, hop: map<nat, nat>, dist: map<nat, real>, u: nat)
    requires WellFormed(g) && Optimal(g, dst, hop, dist) && u in dist && u != dst
    ensures Nearer(dist, hop[u]) < Nearer(dist, u)
  {
    assert g[(u, hop[u])] > 0.0;
    assert hop[u] in Nearer(dist, u) && hop[u] !in Nearer(dist, hop[u]);
  }

  /** The walk of a packet handed from hop to hop until dst. */
  ghost function Walk(g: Graph, dst: nat, hop: map<nat, nat>, dist: map<nat, real>, u: nat): (w: seq<nat>)
    requires WellFormed(g) && Optimal(g, dst, hop, dist) && u in dist
    ensures w != [] && w[0] == u
    decreases Nearer(dist, u)
  {
    if u == dst then [u]
    else
      HopIsNearer(g, dst, hop, dist, u);
      [u] + Walk(g, dst, hop, dist, hop[u])
  }

  /** Following next hops from any node with a route ends at the destination, never meets a node twice, and
      costs exactly the shortest distance: no path from there to the destination is cheaper. */
  lemma {:induction false} WalkIsShortest(g: Graph, dst: nat, hop: map<nat, nat>, dist: map<nat, real>, u: nat)
    requires WellFormed(g) && Optimal(g, dst, hop, dist) && u in dist
    ensures var w := Walk(g, dst, hop, dist, u);
            && Joins(g, w, u, dst) && Cost(g, w) == dist[u]
            && (forall i | 0 <= i < |w| - 1 :: w[i] in dist && w[i] != dst && hop[w[i]] == w[i + 1])
            && (forall i, j | 0 <= i < j < |w| :: w[i] != w[j])
            && IsShortest(g, w, u, dst)
    decreases Nearer(dist, u)
  {
    WalkFollows(g, dst, hop, dist, u);
    WalkDescends(g, dst, hop, dist, u);
    WalkCost(g, dst, hop, dist, u);
    var w := Walk(g, dst, hop, dist, u);
    forall q | Joins(g, q, u, dst) ensures Cost(g, w) <= Cost(g, q) {
      ReverseCost(g, q);
      var p :| IsShortest(g, p, dst, u) && Cost(g, p) == dist[u];
      assert Joins(g, Reverse(q), dst, u);
    }
  }

  lemma {:induction false} WalkFollows(g: Graph, dst: nat, hop: map<nat, nat>, dist: map<nat, real>, u: nat)
    requires WellFormed(g) && Optimal(g, dst, hop, dist) && u in dist
    ensures var w := Walk(g, dst, hop, dist, u);
            && w[|w| - 1] == dst
            && (forall i | 0 <= i < |w| - 1 :: w[i] in dist && w[i] != dst && hop[w[i]] == w[i + 1])
    decreases Nearer(dist, u)
  {
    if u != dst {
      HopIsNearer(g, dst, hop, dist, u);
      WalkFollows(g, dst, hop, dist, hop[u]);
      var t := Walk(g, dst, hop, dist, hop[u]);
      var w := [u] + t;
      forall i | 0 <= i < |w| - 1 ensures w[i] in dist && w[i] != dst && hop[w[i]] == w[i + 1] {
        assert i > 0 ==> w[i] == t[i - 1] && w[i + 1] == t[i];
      }
    }
  }

  /** Every node after the first is nearer than the first, and none occurs twice. */
  ghost predicate Descends(dist: map<nat, real>, w: seq<nat>) {
    && w != [] && (forall i | 0 <= i < |w| :: w[i] in dist)
    && (forall i | 0 < i < |w| :: dist[w[i]] < dist[w[0]])
    && (forall i, j | 0 <= i < j < |w| :: w[i] != w[j])
  }

  lemma DescendsFrom(dist: map<nat, real>, u: nat, t: seq<nat>)
    requires Descends(dist, t) && u in dist && dist[t[0]] < dist[u]
    ensures Descends(dist, [u] + t)
  {
    var w := [u] + t;
    forall i | 0 <= i < |w| ensures w[i] in dist && (i > 0 ==> w[i] == t[i - 1] && dist[w[i]] < dist[u]) {
      assert i > 0 ==> w[i] == t[i - 1];
    }
  }

  lemma {:induction false} WalkDescends(g: Graph, dst: nat, hop: map<nat, nat>, dist: map<nat, real>, u: nat)
    requires WellFormed(g) && Optimal(g, dst, hop, dist) && u in dist
    ensures Descends(dist, Walk(g, dst, hop, dist, u))
    decreases Nearer(dist, u)
  {
    if u != dst {
      HopIsNearer(g, dst, hop, dist, u);
      WalkDescends(g, dst, hop, dist, hop[u]);
      assert g[(u, hop[u])] > 0.0;
      DescendsFrom(dist, u, Walk(g, dst, hop, dist, hop[u]));
    }
  }

  lemma {:induction false} WalkCost(g: Graph, dst: nat, hop: map<nat, nat>, dist: map<nat, real>, u: nat)
    requires WellFormed(g) && Optimal(g, dst, hop, dist) && u in dist
    ensures var w := Walk(g, dst, hop, dist, u);
            Joins(g, w, u, dst) && Cost(g, w) == dist[u]
    decreases Nearer(dist, u)
  {
    if u == dst {
      ZeroDistance(g, dst, dist);
    } else {
      HopIsNearer(g, dst, hop, dist, u);
      WalkCost(g, dst, hop, dist, hop[u]);
      PathGrows(g, u, Walk(g, dst, hop, dist, hop[u]));
    }
  }

  lemma PathGrows(g: Graph, u: nat, t: seq<nat>)
    requires IsPath(g, t) && (u, t[0]) in g
    ensures IsPath(g, [u] + t) && Cost(g, [u] + t) == g[(u, t[0])] + Cost(g, t)
  {
    var w := [u] + t;
    forall i | 0 <= i < |w| - 1 ensures (w[i], w[i + 1]) in g {
      if i > 0 { assert (t[i - 1], t[i]) in g; }
    }
    assert w[1..] == t;
  }

  lemma ZeroDistance(g: Graph, dst: nat, dist: map<nat, real>)
    requires WellFormed(g) && dst in dist && IsDistance(g, dst, dst, dist[dst])
    ensures dist[dst] == 0.0
  {
    var p :| IsShortest(g, p, dst, dst) && Cost(g, p) == dist[dst];
    assert Joins(g, [dst], dst, dst);
    CostNonNegative(g, p);
  }

  lemma {:induction false} CostNonNegative(g: Graph, p: seq<nat>)
    requires WellFormed(g) && IsPath(g, p)
    ensures Cost(g, p) >= 0.0
  {
    if |p| > 1 {
      TailIsPath(g, p);
      CostNonNegative(g, p[1..]);
      assert (p[0], p[1]) in g;
    }
  }

  // ---- The same hops under other weights ----

  /** Under new weights of the same edges no walk of the old hops can be shortened by going to a neighbour first. */
  ghost predicate NoShortcut(g: Graph, h: Graph, dst: nat, hop: map<nat, nat>, dist: map<nat, real>)
    requires WellFormed(g) && Optimal(g, dst, hop, dist) && h.Keys == g.Keys
  {
    forall u, v | (u, v) in h && u in dist && v in dist ::
      WalkCostIn(g, h, dst, hop, dist, u) <= h[(u, v)] + WalkCostIn(g, h, dst, hop, dist, v)
  }

  /** What the walk of the old hops costs now. */
  ghost function WalkCostIn(g: Graph, h: Graph, dst: nat, hop: map<nat, nat>, dist: map<nat, real>, u: nat): real
    requires WellFormed(g) && Optimal(g, dst, hop, dist) && u in dist && h.Keys == g.Keys
  {
    WalkIsPathIn(g, h, dst, hop, dist, u);
    Cost(h, Walk(g, dst, hop, dist, u))
  }

  lemma WalkIsPathIn(g: Graph, h: Graph, dst: nat, hop: map<nat, nat>, dist: map<nat, real>, u: nat)
    requires WellFormed(g) && Optimal(g, dst, hop, dist) && u in dist && h.Keys == g.Keys
    ensures Joins(h, Walk(g, dst, hop, dist, u), u, dst)
  {
    WalkIsShortest(g, dst, hop, dist, u);
    SamePaths(g, h, Walk(g, dst, hop, dist, u));
  }

  lemma SamePaths(g: Graph, h: Graph, p: seq<nat>)
    requires h.Keys == g.Keys
    ensures IsPath(g, p) <==> IsPath(h, p)
  {
    assert forall e :: e in g <==> e in h;
  }

  /** A neighbour of a node with a distance has one. */
  lemma NeighbourReached(g: Graph, dst: nat, hop: map<nat, nat>, dist: map<nat, real>, u: nat, v: nat)
    requires WellFormed(g) && Optimal(g, dst, hop, dist) && v in dist && (u, v) in g
    ensures exists q :: Joins(g, q, dst, u)
  {
    var p :| IsShortest(g, p, dst, v) && Cost(g, p) == dist[v];
    PathExtends(g, p, u);
    assert Joins(g, p + [u], dst, u);
  }

  /** Without a shortcut at a single edge the walks undercut every path. */
  lemma {:induction false} WalksUndercut(g: Graph, h: Graph, dst: nat, hop: map<nat, nat>, dist: map<nat, real>,
                                         q: seq<nat>, u: nat)
    requires WellFormed(g) && Optimal(g, dst, hop, dist) && h.Keys == g.Keys && NoShortcut(g, h, dst, hop, dist)
    requires forall x, p :: Joins(g, p, dst, x) ==> x in dist
    requires Joins(h, q, u, dst) && u in dist
    ensures WalkCostIn(g, h, dst, hop, dist, u) <= Cost(h, q)
    decreases |q|
  {
    if |q| == 1 {
      assert Walk(g, dst, hop, dist, u) == [u];
    } else {
      var v := q[1];
      assert (q[0], q[1]) in h && (v, u) in g;
      NeighbourReached(g, dst, hop, dist, v, u);
      TailIsPath(h, q);
      WalksUndercut(g, h, dst, hop, dist, q[1..], v);
      assert WalkCostIn(g, h, dst, hop, dist, u) <= h[(u, v)] + WalkCostIn(g, h, dst, hop, dist, v);
    }
  }

  lemma JoinsFrom(g: Graph, u: nat, t: seq<nat>, dst: nat)
    requires IsPath(g, t) && t[|t| - 1] == dst && (u, t[0]) in g
    ensures Joins(g, [u] + t, u, dst) && Cost(g, [u] + t) == g[(u, t[0])] + Cost(g, t)
  {
    PathGrows(g, u, t);
  }

  /** Exactly when the walks of the old hops are shortest under the new weights: no edge offers a shortcut. */
  lemma StaysShortest(g: Graph, h: Graph, dst: nat, hop: map<nat, nat>, dist: map<nat, real>)
    requires WellFormed(g) && Optimal(g, dst, hop, dist) && h.Keys == g.Keys
    requires forall x, p :: Joins(g, p, dst, x) ==> x in dist
    ensures (forall u | u in dist :: IsShortest(h, Walk(g, dst, hop, dist, u), u, dst))
            <==> NoShortcut(g, h, dst, hop, dist)
  {
    if NoShortcut(g, h, dst, hop, dist) {
      forall u | u in dist ensures IsShortest(h, Walk(g, dst, hop, dist, u), u, dst) {
        WalkIsPathIn(g, h, dst, hop, dist, u);
        forall q | Joins(h, q, u, dst) ensures Cost(h, Walk(g, dst, hop, dist, u)) <= Cost(h, q) {
          WalksUndercut(g, h, dst, hop, dist, q, u);
        }
      }
    }
    if forall u | u in dist :: IsShortest(h, Walk(g, dst, hop, dist, u), u, dst) {
      forall u, v | (u, v) in h && u in dist && v in dist
        ensures WalkCostIn(g, h, dst, hop, dist, u) <= h[(u, v)] + WalkCostIn(g, h, dst, hop, dist, v)
      {
        WalkIsPathIn(g, h, dst, hop, dist, v);
        JoinsFrom(h, u, Walk(g, dst, hop, dist, v), dst);
        assert IsShortest(h, Walk(g, dst, hop, dist, u), u, dst);
      }
    }
  }

  /** Weights that did not change need no new hops. */
  lemma SameWeights(g: Graph, dst: nat, hop: map<nat, nat>, dist: map<nat, real>)
    requires WellFormed(g) && Optimal(g, dst, hop, dist)
    requires forall x, p :: Joins(g, p, dst, x) ==> x in dist
    ensures NoShortcut(g, g, dst, hop, dist)
  {
    hide Optimal, WellFormed, Walk, IsShortest, NoShortcut;
    forall u | u in dist ensures IsShortest(g, Walk(g, dst, hop, dist, u), u, dst) {
      WalkIsShortest(g, dst, hop, dist, u);
    }
    StaysShortest(g, g, dst, hop, dist);
  }

  /** Ties may be broken differently by the two libraries, but from every node both route at the same cost. */
  lemma VariantsAgree(g: Graph, dst: nat, paths: map<nat, seq<nat>>, preds: map<nat, seq<nat>>,
                      dist: map<nat, real>, u: nat)
    requires WellFormed(g) && PathOracle(g, dst, paths) && PredecessorOracle(g, dst, preds, dist)
    ensures var d := PathDistances(g, dst, paths);
            && Optimal(g, dst, PathHops(dst, paths), d) && Optimal(g, dst, PredecessorHops(dst, preds), dist)
            && (u in d <==> u in dist)
            && (u in dist ==>
                  && IsPath(g, Walk(g, dst, PathHops(dst, paths), d, u))
                  && IsPath(g, Walk(g, dst, PredecessorHops(dst, preds), dist, u))
                  && Cost(g, Walk(g, dst, PathHops(dst, paths), d, u))
                     == Cost(g, Walk(g, dst, PredecessorHops(dst, preds), dist, u)))
  {
    IgraphHopsOptimal(g, dst, paths);
    NetworkxHopsOptimal(g, dst, preds, dist);
    var d := PathDistances(g, dst, paths);
    if u in d {
      assert Joins(g, paths[u], dst, u);
    }
    if u in dist {
      var p :| IsShortest(g, p, dst, u) && Cost(g, p) == dist[u];
      assert u in paths && paths[u] != [];
      WalkIsShortest(g, dst, PathHops(dst, paths), d, u);
      WalkIsShortest(g, dst, PredecessorHops(dst, preds), dist, u);
    }
  }
}

/** Packets through the installed kernels: next hops, tables and devices put together. */
module Delivery {
  import opened Wrappers
  import opened RoutingEntries
  import opened RouteDiff
  import opened NodeRouting
  import opened StaticDaemon
  import opened ShortestPaths

  /** A route of a table built from scratch is found under its destination's prefix, with the device of the
      next hop; a destination without next hop has none. */
  lemma TableLookup(src: Source, dsts: seq<Dest>, sig: Signature, ifaces: Devices, i: nat)
    requires |sig| == |dsts| && Resolvable(sig, ifaces) && DistinctDests(dsts) && NamedByPeer(ifaces) && i < |dsts|
    ensures UniquePrefixes(FreshTable(src, dsts, sig, ifaces))
    ensures At(TableMap(FreshTable(src, dsts, sig, ifaces)), Prefix(dsts[i].summary, ROUTE_PREFIX))
            == if sig[i].None? then None
               else Some(Hop(ifaces[sig[i].value].peerIp, DeviceName(sig[i].value)))
  {
    FreshCoherent(src, dsts, sig, ifaces);
    var slots, table := FreshSlots(src, dsts, sig, ifaces), FreshTable(src, dsts, sig, ifaces);
    var p := Prefix(dsts[i].summary, ROUTE_PREFIX);
    if sig[i].Some? {
      CollectMembers(slots, slots[i].value);
      assert slots[i] in slots;
      var k :| 0 <= k < |table| && table[k] == slots[i].value;
      assert PrefixOf(table[k]) == p;
    } else {
      forall k | 0 <= k < |table| ensures PrefixOf(table[k]) != p {
        CollectMembers(slots, table[k]);
        var j :| 0 <= j < |slots| && slots[j] == Some(table[k]);
        assert j != i;
      }
    }
  }

  /** A network whose every kernel holds the table built from the library's paths. */
  ghost predicate Converged(g: Graph, dsts: seq<Dest>, paths: Paths, views: map<nat, NodeView>) {
    && WellFormed(g) && DistinctDests(dsts)
    && (forall i | 0 <= i < |dsts| :: dsts[i].id in paths && PathOracle(g, dsts[i].id, paths[dsts[i].id]))
    // the graph's edges are the links that have interfaces
    && (forall u | u in views ::
          && NamedByPeer(views[u].ifaces) && Installed(views[u])
          && Resolvable(SignatureOf(paths, dsts, u), views[u].ifaces)
          && exists name, summary ::
               views[u].table
               == FreshTable(Source(u, name, summary), dsts, SignatureOf(paths, dsts, u), views[u].ifaces))
    && (forall e | e in g :: e.0 in views)
  }

  /** The device a node's kernel sends a destination's packets to. */
  function NextDevice(v: NodeView, d: Dest): Option<string> {
    match At(v.fib, Prefix(d.summary, ROUTE_PREFIX))
    case None => None
    case Some(h) => Some(h.dev)
  }

  /** A walk on which every kernel hands the packet to the device towards the next node. */
  ghost predicate Carries(views: map<nat, NodeView>, d: Dest, w: seq<nat>) {
    && w != [] && w[|w| - 1] == d.id
    && forall i | 0 <= i < |w| - 1 :: w[i] in views && NextDevice(views[w[i]], d) == Some(DeviceName(w[i + 1]))
  }

  lemma KernelHop(g: Graph, dsts: seq<Dest>, paths: Paths, views: map<nat, NodeView>, i: nat, u: nat)
    requires Converged(g, dsts, paths, views) && i < |dsts| && u in views
    ensures NextDevice(views[u], dsts[i])
            == match HopFrom(paths, dsts[i].id, u) case None => None case Some(h) => Some(DeviceName(h))
  {
    var sig, v := SignatureOf(paths, dsts, u), views[u];
    var name, summary :| v.table == FreshTable(Source(u, name, summary), dsts, sig, v.ifaces);
    TableLookup(Source(u, name, summary), dsts, sig, v.ifaces, i);
  }

  lemma ConvergedFits(g: Graph, dsts: seq<Dest>, paths: Paths, views: map<nat, NodeView>)
    requires Converged(g, dsts, paths, views)
    ensures WellFormed(g) && forall e | e in g :: e.0 in views
    ensures forall i | 0 <= i < |dsts| :: dsts[i].id in paths && PathOracle(g, dsts[i].id, paths[dsts[i].id])
  {
  }

  lemma WalkStep(g: Graph, dst: nat, hop: map<nat, nat>, dist: map<nat, real>, u: nat, k: nat)
    requires WellFormed(g) && Optimal(g, dst, hop, dist) && u in dist
    requires k < |Walk(g, dst, hop, dist, u)| - 1
    ensures var w := Walk(g, dst, hop, dist, u);
            w[k] in dist && w[k] != dst && w[k] in hop && hop[w[k]] == w[k + 1] && (w[k], w[k + 1]) in g
  {
    WalkFollows(g, dst, hop, dist, u);
  }

  lemma HopOfTree(paths: Paths, d: nat, u: nat)
    requires d in paths && u in PathHops(d, paths[d])
    ensures HopFrom(paths, d, u) == Some(PathHops(d, paths[d])[u])
  {
  }

  /** The walk of the hops is carried. */
  lemma WalkIsCarried(g: Graph, dsts: seq<Dest>, paths: Paths, views: map<nat, NodeView>, i: nat, u: nat)
    requires Converged(g, dsts, paths, views) && i < |dsts|
    requires dsts[i].id in paths && PathOracle(g, dsts[i].id, paths[dsts[i].id])
    requires u in PathDistances(g, dsts[i].id, paths[dsts[i].id])
    ensures var d, tree := dsts[i].id, paths[dsts[i].id];
            && WellFormed(g) && Optimal(g, d, PathHops(d, tree), PathDistances(g, d, tree))
            && Carries(views, dsts[i], Walk(g, d, PathHops(d, tree), PathDistances(g, d, tree), u))
  {
    hide Converged, Optimal, WellFormed, PathOracle, IsShortest, NextDevice, Walk, Cost, DeviceName, PathHops,
        PathDistances, HopFrom;
    ConvergedFits(g, dsts, paths, views);
    var d, tree := dsts[i].id, paths[dsts[i].id];
    IgraphHopsOptimal(g, d, tree);
    var hop, dist := PathHops(d, tree), PathDistances(g, d, tree);
    WalkFollows(g, d, hop, dist, u);
    var w := Walk(g, d, hop, dist, u);
    forall k | 0 <= k < |w| - 1
      ensures w[k] in views && NextDevice(views[w[k]], dsts[i]) == Some(DeviceName(w[k + 1]))
    {
      WalkStep(g, d, hop, dist, u, k);
      HopOfTree(paths, d, w[k]);
      KernelHop(g, dsts, paths, views, i, w[k]);
    }
  }

  /** And nothing else is: a carried walk is the walk of the hops from its first node. */
  lemma {:induction false} CarriedIsWalk(g: Graph, dsts: seq<Dest>, paths: Paths, views: map<nat, NodeView>, i: nat,
                                         q: seq<nat>)
    requires Converged(g, dsts, paths, views) && i < |dsts| && Carries(views, dsts[i], q)
    ensures var d, tree := dsts[i].id, paths[dsts[i].id];
            && Optimal(g, d, PathHops(d, tree), PathDistances(g, d, tree)) && q[0] in PathDistances(g, d, tree)
            && q == Walk(g, d, PathHops(d, tree), PathDistances(g, d, tree), q[0])
    decreases |q|
  {
    hide Converged, NextDevice, DeviceName, PathOracle, IsShortest, Cost, Optimal, WellFormed;
    ConvergedFits(g, dsts, paths, views);
    var d, tree := dsts[i].id, paths[dsts[i].id];
    IgraphHopsOptimal(g, d, tree);
    if |q| == 1 {
      DestinationReached(g, d, tree);
    } else {
      CarriedTail(views, dsts[i], q);
      hide Carries;
      KernelHop(g, dsts, paths, views, i, q[0]);
      DeviceNameInjective(HopFrom(paths, d, q[0]).value, q[1]);
      CarriedIsWalk(g, dsts, paths, views, i, q[1..]);
      assert q == [q[0]] + q[1..];
    }
  }

  lemma DestinationReached(g: Graph, d: nat, tree: map<nat, seq<nat>>)
    requires WellFormed(g) && PathOracle(g, d, tree)
    ensures d in PathDistances(g, d, tree)
  {
    assert Joins(g, [d], d, d);
  }

  lemma CarriedTail(views: map<nat, NodeView>, d: Dest, q: seq<nat>)
    requires Carries(views, d, q) && |q| > 1
    ensures Carries(views, d, q[1..]) && q[0] in views && NextDevice(views[q[0]], d) == Some(DeviceName(q[1]))
  {
    hide NextDevice, DeviceName;
    var t := q[1..];
    forall k | 0 <= k < |t| - 1 ensures t[k] in views && NextDevice(views[t[k]], d) == Some(DeviceName(t[k + 1])) {
      assert t[k] == q[k + 1] && t[k + 1] == q[k + 1 + 1];
    }
  }

  lemma CarriedIsShortest(g: Graph, dsts: seq<Dest>, paths: Paths, views: map<nat, NodeView>, i: nat, q: seq<nat>)
    requires Converged(g, dsts, paths, views) && i < |dsts| && Carries(views, dsts[i], q)
    ensures IsShortest(g, q, q[0], dsts[i].id)
  {
    hide Converged, Carries, IsShortest, Optimal, PathOracle;
    ConvergedFits(g, dsts, paths, views);
    CarriedIsWalk(g, dsts, paths, views, i, q);
    var d, tree := dsts[i].id, paths[dsts[i].id];
    WalkIsShortest(g, d, PathHops(d, tree), PathDistances(g, d, tree), q[0]);
  }

  /** No edge offers a carried walk a shortcut under some weights. */
  ghost predicate NoCarriedShortcut(h: Graph, views: map<nat, NodeView>, d: Dest) {
    forall p, q | Carries(views, d, p) && Carries(views, d, q) && IsPath(h, p) && IsPath(h, q) && (p[0], q[0]) in h ::
      Cost(h, p) <= h[(p[0], q[0])] + Cost(h, q)
  }

  /** What is carried after the weights changed while the edges did not: the same walks, still over edges, and all
      of them shortest exactly when no edge offers a shortcut. */
  lemma CarriedStaysShortest(g: Graph, h: Graph, dsts: seq<Dest>, paths: Paths, views: map<nat, NodeView>, i: nat)
    requires Converged(g, dsts, paths, views) && i < |dsts| && h.Keys == g.Keys
    ensures forall q | Carries(views, dsts[i], q) :: IsPath(h, q)
    ensures (forall q | Carries(views, dsts[i], q) :: IsShortest(h, q, q[0], dsts[i].id))
            <==> NoCarriedShortcut(h, views, dsts[i])
  {
    var d, tree := dsts[i].id, paths[dsts[i].id];
    IgraphHopsOptimal(g, d, tree);
    var hop, dist := PathHops(d, tree), PathDistances(g, d, tree);
    hide Converged, Optimal, Carries, IsShortest, Walk, WellFormed;
    forall u | u in dist
      ensures Carries(views, dsts[i], Walk(g, d, hop, dist, u)) && Joins(h, Walk(g, d, hop, dist, u), u, d)
    {
      ConvergedFits(g, dsts, paths, views);
      WalkIsCarried(g, dsts, paths, views, i, u);
      WalkIsPathIn(g, h, d, hop, dist, u);
    }
    forall q | Carries(views, dsts[i], q) ensures q != [] && q[0] in dist && q == Walk(g, d, hop, dist, q[0]) {
      CarriedIsWalk(g, dsts, paths, views, i, q);
    }
    ConvergedFits(g, dsts, paths, views);
    ReachedHaveDistance(g, d, tree);
    StaysShortest(g, h, d, hop, dist);
  }

  lemma ReachedHaveDistance(g: Graph, d: nat, tree: map<nat, seq<nat>>)
    requires PathOracle(g, d, tree)
    ensures forall x, p :: Joins(g, p, d, x) ==> x in PathDistances(g, d, tree)
  {
  }

  /** Loop-free optimal delivery: from every node whose kernel has a route to d, the devices carry the packet
      to d along a walk without repetition that no path from there to d undercuts; and the kernel of every
      node d can be reached from, other than d, has a route. */
  lemma PacketsArrive(g: Graph, dsts: seq<Dest>, paths: Paths, views: map<nat, NodeView>, i: nat, u: nat)
    requires Converged(g, dsts, paths, views) && i < |dsts| && u in views && u != dsts[i].id
    ensures NextDevice(views[u], dsts[i]).Some? ==>
              exists w :: && Carries(views, dsts[i], w) && IsShortest(g, w, u, dsts[i].id)
                          && forall a, b | 0 <= a < b < |w| :: w[a] != w[b]
    ensures (exists q :: Joins(g, q, dsts[i].id, u)) ==> NextDevice(views[u], dsts[i]).Some?
  {
    var d, tree := dsts[i].id, paths[dsts[i].id];
    IgraphHopsOptimal(g, d, tree);
    var hop, dist := PathHops(d, tree), PathDistances(g, d, tree);
    KernelHop(g, dsts, paths, views, i, u);
    if NextDevice(views[u], dsts[i]).Some? {
      assert u in dist;
      WalkIsShortest(g, d, hop, dist, u);
      WalkIsCarried(g, dsts, paths, views, i, u);
    }
    if q :| Joins(g, q, d, u) {
      assert u in dist && u in hop;
    }
  }
}

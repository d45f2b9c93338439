/** In which order the planes come out: they are sorted by a plain mean of angles
    (satgonetem/utils/project_builder.py:572-581). */
module PlaneOrder {
  import opened StableSort
  import opened Clusters
  import opened OrbitalPlanes

  /** Two satellites of one cluster on the circle. */
  ghost predicate OneCluster(sats: seq<Sat>, t: real, x: Sat, y: Sat) {
    Linked(sats, CloseRaan(t), x, y)
  }

  /** Of two satellites of different clusters the one in the earlier plane has the smaller ascending node: the
      planes come in the order of their clusters around the circle, from 0 degrees on. */
  ghost predicate InOrder(sats: seq<Sat>, t: real, m: real) {
    var planes := Planes(sats, t, m);
    forall i, j, x: Sat, y: Sat
      | 0 <= i < j < |planes| && x in planes[i] && y in planes[j] && !OneCluster(sats, t, x, y) ::
      x.raan <= y.raan
  }

  /** Two satellites linked in altitude by satellites of one cluster. */
  ghost predicate OnePlane(sats: seq<Sat>, t: real, m: real, x: Sat, y: Sat) {
    exists path :: Chain(sats, CloseAltitude(m), path, x, y) && forall p | p in path :: OneCluster(sats, t, x, p)
  }

  /** Some satellite of another cluster lies, counted from 0 degrees, between two satellites that belong in one
      plane. */
  ghost predicate Straddled(sats: seq<Sat>, t: real, m: real) {
    exists x, y, z ::
      && x in sats && y in sats && z in sats && OnePlane(sats, t, m, x, y)
      && !OneCluster(sats, t, x, z) && x.raan < z.raan < y.raan
  }

  /** The same, by the planes that come out. */
  ghost predicate PlaneStraddled(sats: seq<Sat>, t: real, m: real) {
    var planes := Planes(sats, t, m);
    exists i, x, y, z ::
      && 0 <= i < |planes| && x in planes[i] && y in planes[i] && z in sats
      && !OneCluster(sats, t, x, z) && x.raan < z.raan < y.raan
  }

  lemma CloseBothWays(t: real)
    ensures forall a, b :: CloseRaan(t)(a, b) == CloseRaan(t)(b, a)
  {
  }

  /** The satellites of a plane are satellites, and of one cluster. */
  lemma PlaneInCluster(sats: seq<Sat>, t: real, m: real, i: nat, x: Sat, y: Sat)
    requires Distinct(sats) && OnCircle(sats) && i < |Planes(sats, t, m)|
    requires x in Planes(sats, t, m)[i] && y in Planes(sats, t, m)[i]
    ensures x in sats && y in sats && OneCluster(sats, t, x, y)
  {
    var planes := Planes(sats, t, m);
    PlanesHoldAll(sats, t, m);
    FlattenMembers(planes, x);
    FlattenMembers(planes, y);
    assert forall z :: z in Flatten(planes) <==> z in multiset(Flatten(planes));
    assert forall z :: z in sats <==> z in multiset(sats);
    hide Planes, Linked, RaanPlanes;
    SamePlane(sats, t, m, x, y);
    RaanComponents(sats, t, x, y);
  }

  /** Satellites at one place are in one cluster. */
  lemma SamePlaceSameCluster(sats: seq<Sat>, t: real, x: Sat, y: Sat)
    requires t > 0.0 && x in sats && y in sats && x.raan == y.raan
    ensures OneCluster(sats, t, x, y)
  {
    assert CloseRaan(t)(x, y);
    assert Chain(sats, CloseRaan(t), [x, y], x, y);
  }

  /** What belongs to another cluster than one satellite of a plane does so for every one. */
  lemma OtherCluster(sats: seq<Sat>, t: real, m: real, i: nat, x: Sat, y: Sat, z: Sat)
    requires Distinct(sats) && OnCircle(sats) && i < |Planes(sats, t, m)|
    requires x in Planes(sats, t, m)[i] && y in Planes(sats, t, m)[i] && !OneCluster(sats, t, x, z)
    ensures !OneCluster(sats, t, y, z) && !OneCluster(sats, t, z, y)
  {
    hide Planes, Linked;
    PlaneInCluster(sats, t, m, i, x, y);
    CloseBothWays(t);
    if OneCluster(sats, t, z, y) {
      LinkedBack(sats, CloseRaan(t), z, y);
    }
    if OneCluster(sats, t, y, z) {
      LinkedThrough(sats, CloseRaan(t), x, y, z);
    }
  }

  // ---- Means ----

  lemma OneMore(c: real, n: nat)
    ensures c * (n + 1) as real == c * n as real + c
  {
    var r := n as real;
    assert (n + 1) as real == r + 1.0;
    assert c * (r + 1.0) == c * r + c;
  }

  lemma {:induction false} SumAtMost(plane: seq<Sat>, c: real)
    requires forall x | x in plane :: x.raan <= c
    ensures SumRaan(plane) <= c * |plane| as real
  {
    if plane != [] {
      var n := |plane| - 1;
      SumAtMost(plane[..n], c);
      OneMore(c, n);
      assert plane[n] in plane;
    }
  }

  lemma {:induction false} SumAbove(plane: seq<Sat>, c: real)
    requires plane != [] && forall x | x in plane :: x.raan > c
    ensures SumRaan(plane) > c * |plane| as real
  {
    var n := |plane| - 1;
    OneMore(c, n);
    assert plane[n] in plane;
    if n > 0 {
      SumAbove(plane[..n], c);
    } else {
      assert SumRaan(plane[..0]) == 0.0;
    }
  }

  lemma {:induction false} LastOnCircle(plane: seq<Sat>) returns (x: Sat)
    requires plane != []
    ensures x in plane && forall y | y in plane :: y.raan <= x.raan
  {
    var n := |plane| - 1;
    assert plane == plane[..n] + [plane[n]];
    x := plane[n];
    if n > 0 {
      var y := LastOnCircle(plane[..n]);
      if y.raan > x.raan {
        x := y;
      }
    }
  }

  /** If every satellite of a plane comes before every one of another, so does the mean. */
  lemma MeanBefore(p: seq<Sat>, q: seq<Sat>)
    requires p != [] && q != [] && forall x, y | x in p && y in q :: x.raan < y.raan
    ensures MeanRaan(p) < MeanRaan(q)
  {
    var last := LastOnCircle(p);
    var c := last.raan;
    SumAtMost(p, c);
    SumAbove(q, c);
    Divided(SumRaan(p), c, |p| as real);
    Divided(SumRaan(q), c, |q| as real);
  }

  lemma Divided(sum: real, c: real, r: real)
    requires r > 0.0
    ensures sum <= c * r <==> sum / r <= c
  {
    var mean := sum / r;
    assert mean * r == sum;
    if mean <= c {
      assert (c - mean) * r >= 0.0;
    } else {
      assert (mean - c) * r > 0.0;
    }
  }

  // ---- The exact condition ----

  lemma SortedByMean(sats: seq<Sat>, t: real, m: real, i: nat, j: nat)
    requires i < j < |Planes(sats, t, m)|
    ensures MeanRaan(Planes(sats, t, m)[i]) <= MeanRaan(Planes(sats, t, m)[j])
  {
    SortBySorts(AllSubPlanes(RaanPlanes(sats, t), m), MeanRaan);
  }

  /** Planes neither of which is straddled by the other lie one before the other. */
  lemma ApartOrLater(sats: seq<Sat>, t: real, m: real, i: nat, j: nat, x: Sat, y: Sat)
    requires t > 0.0 && Distinct(sats) && OnCircle(sats) && !PlaneStraddled(sats, t, m)
    requires i < |Planes(sats, t, m)| && j < |Planes(sats, t, m)| && x in Planes(sats, t, m)[i]
    requires y in Planes(sats, t, m)[j] && !OneCluster(sats, t, x, y) && x.raan > y.raan
    ensures forall x', y' | x' in Planes(sats, t, m)[i] && y' in Planes(sats, t, m)[j] :: y'.raan < x'.raan
  {
    var planes := Planes(sats, t, m);
    hide Planes, OneCluster;
    forall x': Sat, y': Sat | x' in planes[i] && y' in planes[j] ensures y'.raan < x'.raan {
      PlaneInCluster(sats, t, m, i, x, x');
      PlaneInCluster(sats, t, m, j, y, y');
      OtherCluster(sats, t, m, i, x, x', y);
      OtherCluster(sats, t, m, j, y, y', x');
      if x'.raan == y.raan {
        SamePlaceSameCluster(sats, t, x', y);
      }
      if x'.raan == y'.raan {
        SamePlaceSameCluster(sats, t, x', y');
      }
      assert !(x'.raan < y.raan < x.raan);
      assert !(y.raan < x'.raan < y'.raan);
    }
  }

  lemma UnstraddledInOrder(sats: seq<Sat>, t: real, m: real)
    requires t > 0.0 && Distinct(sats) && OnCircle(sats) && !PlaneStraddled(sats, t, m)
    ensures InOrder(sats, t, m)
  {
    var planes := Planes(sats, t, m);
    PlanesHoldAll(sats, t, m);
    hide Planes, OneCluster, PlaneStraddled;
    forall i, j, x: Sat, y: Sat
      | 0 <= i < j < |planes| && x in planes[i] && y in planes[j] && !OneCluster(sats, t, x, y)
      ensures x.raan <= y.raan
    {
      if x.raan > y.raan {
        ApartOrLater(sats, t, m, i, j, x, y);
        assert planes[i] in planes && planes[j] in planes;
        MeanBefore(planes[j], planes[i]);
        SortedByMean(sats, t, m, i, j);
        assert false;
      }
    }
  }

  lemma InOrderUnstraddled(sats: seq<Sat>, t: real, m: real)
    requires Distinct(sats) && OnCircle(sats) && InOrder(sats, t, m)
    ensures !PlaneStraddled(sats, t, m)
  {
    var planes := Planes(sats, t, m);
    hide Planes, OneCluster;
    forall i: nat, x: Sat, y: Sat, z: Sat | i < |planes| && x in planes[i] && y in planes[i] && z in sats
                        && !OneCluster(sats, t, x, z) && x.raan < z.raan < y.raan
      ensures false
    {
      var j := ExactlyOnePlane(sats, t, m, z);
      OtherCluster(sats, t, m, i, x, x, z);
      OtherCluster(sats, t, m, i, x, y, z);
      if i == j {
        PlaneInCluster(sats, t, m, i, x, z);
      }
    }
  }

  /** The clusters hold the satellites, each one in one cluster. */
  lemma ClusterMembers(sats: seq<Sat>, t: real, x: Sat)
    requires sats != [] && Distinct(sats) && OnCircle(sats)
    ensures var clusters := RaanPlanes(sats, t);
            && (x in sats <==> exists r :: 0 <= r < |clusters| && x in clusters[r])
            && forall q, r
                 | 0 <= q < |clusters| && 0 <= r < |clusters| && x in clusters[q] && x in clusters[r] :: q == r
  {
    var clusters := RaanPlanes(sats, t);
    ClustersHoldAll(sats, t);
    SamePermutation(sats, Flatten(clusters));
    FlattenMembers(clusters, x);
    hide RaanPlanes, Flatten;
    forall q, r | 0 <= q < |clusters| && 0 <= r < |clusters| && x in clusters[q] && x in clusters[r] ensures q == r {
      OneGroup(clusters, x, q, r);
    }
  }

  /** The cluster of a satellite is what is linked with it on the circle. */
  lemma ClusterOf(sats: seq<Sat>, t: real, r: nat, x: Sat, p: Sat)
    requires Distinct(sats) && OnCircle(sats) && x in sats && r < |RaanPlanes(sats, t)| && x in RaanPlanes(sats, t)[r]
    ensures p in RaanPlanes(sats, t)[r] <==> p in sats && OneCluster(sats, t, x, p)
  {
    ClusterMembers(sats, t, x);
    ClusterMembers(sats, t, p);
    hide RaanPlanes, Linked, Distinct, OnCircle;
    if p in sats {
      RaanComponents(sats, t, x, p);
    }
  }

  /** Links within a part of the satellites are links within those that belong to it. */
  lemma LinkedInPart(sats: seq<Sat>, part: seq<Sat>, t: real, m: real, x: Sat, y: Sat)
    requires forall p :: p in part <==> p in sats && OneCluster(sats, t, x, p)
    ensures Linked(part, CloseAltitude(m), x, y) <==> OnePlane(sats, t, m, x, y)
  {
    hide OneCluster, CloseAltitude;
    if Linked(part, CloseAltitude(m), x, y) {
      var path :| Chain(part, CloseAltitude(m), path, x, y);
      assert Chain(sats, CloseAltitude(m), path, x, y);
    }
    if OnePlane(sats, t, m, x, y) {
      var path :| Chain(sats, CloseAltitude(m), path, x, y) && forall p | p in path :: OneCluster(sats, t, x, p);
      assert Chain(part, CloseAltitude(m), path, x, y);
    }
  }

  lemma LinkedEnds(sats: seq<Sat>, close: (Sat, Sat) -> bool, x: Sat, y: Sat)
    requires Linked(sats, close, x, y)
    ensures x in sats && y in sats
  {
    var path :| Chain(sats, close, path, x, y);
    assert path[0] in path && path[|path| - 1] in path;
  }

  /** Two satellites share a plane exactly when satellites of one cluster link them in altitude. */
  lemma SamePlaneExact(sats: seq<Sat>, t: real, m: real, x: Sat, y: Sat)
    requires Distinct(sats) && OnCircle(sats) && x in sats
    ensures Together(Planes(sats, t, m), x, y) <==> OnePlane(sats, t, m, x, y)
  {
    var clusters := RaanPlanes(sats, t);
    hide *;
    SamePlane(sats, t, m, x, y);
    ClusterMembers(sats, t, x);
    var r :| 0 <= r < |clusters| && x in clusters[r];
    forall p ensures p in clusters[r] <==> p in sats && OneCluster(sats, t, x, p) {
      ClusterOf(sats, t, r, x, p);
    }
    LinkedInPart(sats, clusters[r], t, m, x, y);
    if Linked(clusters[r], CloseAltitude(m), x, y) {
      LinkedEnds(clusters[r], CloseAltitude(m), x, y);
    }
  }

  lemma StraddledHere(sats: seq<Sat>, t: real, m: real, x: Sat, y: Sat, z: Sat)
    requires Distinct(sats) && OnCircle(sats) && x in sats && y in sats && z in sats && OnePlane(sats, t, m, x, y)
    requires !OneCluster(sats, t, x, z) && x.raan < z.raan < y.raan
    ensures PlaneStraddled(sats, t, m)
  {
    hide Planes, OneCluster, OnePlane, Distinct, OnCircle;
    SamePlaneExact(sats, t, m, x, y);
  }

  lemma PlaneStraddledHere(sats: seq<Sat>, t: real, m: real, i: nat, x: Sat, y: Sat, z: Sat)
    requires Distinct(sats) && OnCircle(sats) && i < |Planes(sats, t, m)| && x in Planes(sats, t, m)[i]
    requires y in Planes(sats, t, m)[i] && z in sats && !OneCluster(sats, t, x, z) && x.raan < z.raan < y.raan
    ensures Straddled(sats, t, m)
  {
    hide Planes, OneCluster, OnePlane, Distinct, OnCircle;
    PlaneInCluster(sats, t, m, i, x, y);
    SamePlaneExact(sats, t, m, x, y);
  }

  lemma StraddledInPlanes(sats: seq<Sat>, t: real, m: real)
    requires Distinct(sats) && OnCircle(sats) && Straddled(sats, t, m)
    ensures PlaneStraddled(sats, t, m)
  {
    hide PlaneStraddled, OneCluster, OnePlane, Distinct, OnCircle;
    var x, y, z :| x in sats && y in sats && z in sats && OnePlane(sats, t, m, x, y) && !OneCluster(sats, t, x, z)
                   && x.raan < z.raan < y.raan;
    StraddledHere(sats, t, m, x, y, z);
  }

  lemma StraddledBySats(sats: seq<Sat>, t: real, m: real)
    requires Distinct(sats) && OnCircle(sats) && PlaneStraddled(sats, t, m)
    ensures Straddled(sats, t, m)
  {
    hide Straddled, Planes, OneCluster, OnePlane, Distinct, OnCircle;
    var planes := Planes(sats, t, m);
    var i, x: Sat, y: Sat, z: Sat :| 0 <= i < |planes| && x in planes[i] && y in planes[i] && z in sats
                                     && !OneCluster(sats, t, x, z) && x.raan < z.raan < y.raan;
    PlaneStraddledHere(sats, t, m, i, x, y, z);
  }

  /** The planes come in the order of their clusters exactly when no plane is straddled: when no satellite of
      another cluster lies, counted from 0 degrees, between two satellites of one cluster that are linked in
      altitude. */
  lemma OrderExact(sats: seq<Sat>, t: real, m: real)
    requires t > 0.0 && Distinct(sats) && OnCircle(sats)
    ensures InOrder(sats, t, m) <==> !Straddled(sats, t, m)
  {
    hide *;
    if Straddled(sats, t, m) {
      StraddledInPlanes(sats, t, m);
    } else if PlaneStraddled(sats, t, m) {
      StraddledBySats(sats, t, m);
    }
    if InOrder(sats, t, m) {
      InOrderUnstraddled(sats, t, m);
    } else if !PlaneStraddled(sats, t, m) {
      UnstraddledInOrder(sats, t, m);
    }
  }

  /** Planes in order that follow each other are neighbours in space: no satellite of a third cluster is
      between them. */
  lemma ConsecutiveAreNeighbours(sats: seq<Sat>, t: real, m: real, i: nat, x: Sat, y: Sat, z: Sat)
    requires Distinct(sats) && OnCircle(sats) && InOrder(sats, t, m) && i + 1 < |Planes(sats, t, m)|
    requires x in Planes(sats, t, m)[i] && y in Planes(sats, t, m)[i + 1] && z in sats
    requires !OneCluster(sats, t, x, z) && !OneCluster(sats, t, y, z)
    ensures !(x.raan < z.raan < y.raan)
  {
    var planes := Planes(sats, t, m);
    hide Planes, OneCluster;
    var k := ExactlyOnePlane(sats, t, m, z);
    OtherCluster(sats, t, m, i, x, x, z);
    OtherCluster(sats, t, m, i + 1, y, y, z);
    if k == i {
      PlaneInCluster(sats, t, m, i, x, z);
    } else if k == i + 1 {
      PlaneInCluster(sats, t, m, i + 1, y, z);
    }
  }

  // ---- A condition on the satellites alone ----

  /** No two satellites are near each other across 0 degrees. */
  predicate ApartAtZero(sats: seq<Sat>, t: real) {
    forall x, y | x in sats && y in sats :: y.raan - x.raan <= 360.0 - t
  }

  lemma {:induction false} ChainCrosses(path: seq<Sat>, z: real) returns (i: nat)
    requires |path| >= 1 && path[0].raan < z < path[|path| - 1].raan
    ensures i + 1 < |path| && path[i].raan <= z <= path[i + 1].raan
  {
    var n := |path| - 1;
    if path[n - 1].raan <= z {
      i := n - 1;
    } else {
      i := ChainCrosses(path[..n], z);
    }
  }

  /** What lies between two satellites of a cluster that keeps away from 0 degrees is in the cluster. */
  lemma BetweenIsInside(sats: seq<Sat>, t: real, x: Sat, y: Sat, z: Sat)
    requires OnCircle(sats) && ApartAtZero(sats, t) && OneCluster(sats, t, x, y) && z in sats
    requires x.raan < z.raan < y.raan
    ensures OneCluster(sats, t, x, z)
  {
    var path: seq<Sat> :| Chain(sats, CloseRaan(t), path, x, y);
    var i := ChainCrosses(path, z.raan);
    assert path[i] in path && path[i + 1] in path;
    assert CloseRaan(t)(path[i], path[i + 1]);
    assert CloseRaan(t)(path[i], z);
    var front := path[..i + 1] + [z];
    forall k | 0 <= k < |front| - 1 ensures CloseRaan(t)(front[k], front[k + 1]) {
      if k < i {
        assert CloseRaan(t)(path[k], path[k + 1]);
      }
    }
    assert Chain(sats, CloseRaan(t), front, x, z);
  }

  /** So satellites that are not near each other across 0 degrees get planes in order. */
  lemma ApartInOrder(sats: seq<Sat>, t: real, m: real)
    requires t > 0.0 && Distinct(sats) && OnCircle(sats) && ApartAtZero(sats, t)
    ensures InOrder(sats, t, m)
  {
    var planes := Planes(sats, t, m);
    hide Planes, OneCluster, ApartAtZero;
    forall i: nat, x: Sat, y: Sat, z: Sat | i < |planes| && x in planes[i] && y in planes[i] && z in sats
                        && !OneCluster(sats, t, x, z) && x.raan < z.raan < y.raan
      ensures false
    {
      PlaneInCluster(sats, t, m, i, x, y);
      BetweenIsInside(sats, t, x, y, z);
    }
    UnstraddledInOrder(sats, t, m);
  }

  /** Not only those: two satellites on both sides of 0 degrees are one plane, which is in order. */
  lemma NearZeroInOrder(a: Sat, b: Sat, m: real)
    requires a.raan == 1.0 && b.raan == 359.0
    ensures !ApartAtZero([a, b], 5.0) && InOrder([a, b], 5.0, m)
  {
    var sats := [a, b];
    assert sats[0] in sats && sats[1] in sats && OnCircle(sats) && Distinct(sats);
    forall x, y | x in sats && y in sats ensures OneCluster(sats, 5.0, x, y) {
      assert CloseRaan(5.0)(x, y);
      assert Chain(sats, CloseRaan(5.0), [x, y], x, y);
    }
    hide Planes, OneCluster;
    OneClusterInOrder(sats, 5.0, m);
  }

  lemma OneClusterInOrder(sats: seq<Sat>, t: real, m: real)
    requires Distinct(sats) && OnCircle(sats) && forall x, y | x in sats && y in sats :: OneCluster(sats, t, x, y)
    ensures InOrder(sats, t, m)
  {
    var planes := Planes(sats, t, m);
    hide Planes, OneCluster;
    forall i, j, x: Sat, y: Sat | 0 <= i < j < |planes| && x in planes[i] && y in planes[j]
      ensures OneCluster(sats, t, x, y)
    {
      PlaneInCluster(sats, t, m, i, x, x);
      PlaneInCluster(sats, t, m, j, y, y);
    }
  }

  // ---- The failing input ----

  /** A list in which the gap after one satellite is the largest. */
  lemma LargestAt(s: seq<Sat>, k: nat, b: nat)
    requires b < k <= |s|
    requires forall i: nat | i < k && i != b :: GapAfter(s, i) < GapAfter(s, b)
    ensures Largest(s, k) == b
  {
    LargestIsLargest(s, k, b);
  }

  /** Satellites at 1, 90, 170, 190 and 359 degrees. */
  function Five(): seq<Sat> {
    [Sat(0, 1.0, 0.0, 550.0), Sat(1, 90.0, 0.0, 550.0), Sat(2, 170.0, 0.0, 550.0), Sat(3, 190.0, 0.0, 550.0),
     Sat(4, 359.0, 0.0, 550.0)]
  }

  lemma FiveSats()
    ensures var s := Five(); Distinct(s) && OnCircle(s) && |s| == 5
    ensures var s := Five(); s[0].raan < s[1].raan < s[2].raan < s[3].raan < s[4].raan
  {
  }

  lemma RotatedAt(s: seq<Sat>)
    requires |s| == 5 && Largest(s, 5) == 3
    ensures Rotated(s) == [s[4], s[0], s[1], s[2], s[3]]
  {
  }

  /** The list from behind its largest gap, which is the one from 190 to 359 degrees. */
  lemma FiveRotated()
    ensures var s := Five(); SortBy(s, Raan) == s && |s| == 5 && Rotated(s) == [s[4], s[0], s[1], s[2], s[3]]
  {
    var s := Five();
    FiveSats();
    FiveGaps();
    hide Five, GapAfter, Rotated, Largest, SortBy;
    SortedAlready(s, Raan);
    LargestAt(s, 5, 3);
    RotatedAt(s);
  }

  lemma FiveGaps()
    ensures forall i: nat | i < 5 && i != 3 :: GapAfter(Five(), i) < GapAfter(Five(), 3)
  {
  }

  /** One turn of the split, as a next element of the list and of the last group. */
  lemma SplitOn(w: seq<Sat>, t: real, done: seq<seq<Sat>>, last: seq<Sat>, x: Sat)
    requires w != [] && last != [] && Split(w, NearRaan(t)) == done + [last]
    ensures Split(w + [x], NearRaan(t))
            == if NearRaan(t)(w[|w| - 1], x) then done + [last + [x]] else done + [last, [x]]
  {
    hide Split, NearRaan;
    var more := w + [x];
    assert more[..|w|] == w && more[..|w| + 1] == more;
    SplitStep(more, NearRaan(t), done, last, |w|);
    assert done + [last] + [[x]] == done + [last, [x]];
  }

  lemma FiveNear()
    ensures var s, near := Five(), NearRaan(5.0);
            near(s[4], s[0]) && !near(s[0], s[1]) && !near(s[1], s[2]) && !near(s[2], s[3])
  {
  }

  /** A pair that is close, then satellites each far from the one before. */
  lemma SplitPair(t: real, a: Sat, b: Sat)
    requires NearRaan(t)(a, b)
    ensures Split([a, b], NearRaan(t)) == [[a, b]]
  {
    assert Split([a], NearRaan(t)) == [] + [[a]];
    SplitOn([a], t, [], [a], b);
    assert [a] + [b] == [a, b] && [] + [[a, b]] == [[a, b]];
  }

  lemma SplitThree(t: real, a: Sat, b: Sat, c: Sat)
    requires NearRaan(t)(a, b) && !NearRaan(t)(b, c)
    ensures Split([a, b, c], NearRaan(t)) == [[a, b], [c]]
  {
    hide NearRaan, Split;
    SplitPair(t, a, b);
    assert [] + [[a, b]] == [[a, b]];
    SplitOn([a, b], t, [], [a, b], c);
    assert [a, b] + [c] == [a, b, c] && [] + [[a, b], [c]] == [[a, b], [c]];
  }

  lemma SplitFour(t: real, a: Sat, b: Sat, c: Sat, d: Sat)
    requires NearRaan(t)(a, b) && !NearRaan(t)(b, c) && !NearRaan(t)(c, d)
    ensures Split([a, b, c, d], NearRaan(t)) == [[a, b], [c], [d]]
  {
    hide NearRaan, Split;
    SplitThree(t, a, b, c);
    assert [[a, b]] + [[c]] == [[a, b], [c]];
    SplitOn([a, b, c], t, [[a, b]], [c], d);
    assert [a, b, c] + [d] == [a, b, c, d] && [[a, b]] + [[c], [d]] == [[a, b], [c], [d]];
  }

  lemma SplitFive(t: real, a: Sat, b: Sat, c: Sat, d: Sat, e: Sat)
    requires NearRaan(t)(a, b) && !NearRaan(t)(b, c) && !NearRaan(t)(c, d) && !NearRaan(t)(d, e)
    ensures Split([a, b, c, d, e], NearRaan(t)) == [[a, b], [c], [d], [e]]
  {
    hide NearRaan, Split;
    SplitFour(t, a, b, c, d);
    assert [[a, b], [c]] + [[d]] == [[a, b], [c], [d]];
    SplitOn([a, b, c, d], t, [[a, b], [c]], [d], e);
    assert [a, b, c, d] + [e] == [a, b, c, d, e] && [[a, b], [c]] + [[d], [e]] == [[a, b], [c], [d], [e]];
  }

  lemma FiveClusters()
    ensures var s := Five(); RaanPlanes(s, 5.0) == [[s[4], s[0]], [s[1]], [s[2]], [s[3]]]
  {
    var s := Five();
    FiveRotated();
    FiveNear();
    FiveSats();
    hide Five, NearRaan, SortBy, Rotated, Split;
    SplitFive(5.0, s[4], s[0], s[1], s[2], s[3]);
  }

  lemma OneSubPlane(x: Sat)
    ensures SubPlanes([x], 50.0) == [[x]]
  {
    SortedAlready([x], Altitude);
  }

  lemma TwoTogether(x: Sat, y: Sat)
    requires x.altitude == y.altitude
    ensures SubPlanes([x, y], 50.0) == [[x, y]]
  {
    SortedAlready([x, y], Altitude);
    assert [x, y][..1] == [x] && [] + [x] + [y] == [x, y];
    SplitStep([x, y], NearAltitude(50.0), [], [x], 1);
    assert [x, y][..2] == [x, y];
  }

  lemma OneMoreCluster(planes: seq<seq<Sat>>, last: seq<Sat>)
    ensures AllSubPlanes(planes + [last], 50.0) == AllSubPlanes(planes, 50.0) + SubPlanes(last, 50.0)
  {
    assert (planes + [last])[..|planes|] == planes;
  }

  lemma FiveSubPlanes()
    ensures var s := Five();
            AllSubPlanes(RaanPlanes(s, 5.0), 50.0) == [[s[4], s[0]], [s[1]], [s[2]], [s[3]]]
  {
    var s := Five();
    FiveClusters();
    TwoTogether(s[4], s[0]);
    OneSubPlane(s[1]);
    OneSubPlane(s[2]);
    OneSubPlane(s[3]);
    hide RaanPlanes, SubPlanes;
    OneMoreCluster([], [s[4], s[0]]);
    OneMoreCluster([[s[4], s[0]]], [s[1]]);
    OneMoreCluster([[s[4], s[0]], [s[1]]], [s[2]]);
    OneMoreCluster([[s[4], s[0]], [s[1]], [s[2]]], [s[3]]);
    assert [] + [[s[4], s[0]]] == [[s[4], s[0]]];
    assert [[s[4], s[0]]] + [[s[1]]] == [[s[4], s[0]], [s[1]]];
    assert [[s[4], s[0]], [s[1]]] + [[s[2]]] == [[s[4], s[0]], [s[1]], [s[2]]];
    assert [[s[4], s[0]], [s[1]], [s[2]]] + [[s[3]]] == [[s[4], s[0]], [s[1]], [s[2]], [s[3]]];
  }

  lemma FiveMeans()
    ensures var s := Five();
            && MeanRaan([s[4], s[0]]) == 180.0 && MeanRaan([s[1]]) == 90.0
            && MeanRaan([s[2]]) == 170.0 && MeanRaan([s[3]]) == 190.0
  {
    var s := Five();
    assert [s[4], s[0]][..1] == [s[4]] && [s[4]][..0] == [];
    assert [s[1]][..0] == [] && [s[2]][..0] == [] && [s[3]][..0] == [];
    assert SumRaan([s[4]]) == 359.0 && SumRaan([s[4], s[0]]) == 360.0;
    assert SumRaan([s[1]]) == 90.0 && SumRaan([s[2]]) == 170.0 && SumRaan([s[3]]) == 190.0;
  }

  lemma InsertLast<T>(s: seq<T>, x: T, key: T -> real)
    requires s != [] ==> key(s[|s| - 1]) <= key(x)
    ensures Insert(s, x, key) == s + [x]
  {
  }

  lemma InsertBeforeLast<T>(s: seq<T>, last: T, x: T, key: T -> real)
    requires key(x) < key(last) && (s != [] ==> key(s[|s| - 1]) <= key(x))
    ensures Insert(s + [last], x, key) == s + [x, last]
  {
    assert (s + [last])[..|s|] == s;
    InsertLast(s, x, key);
    assert s + [x] + [last] == s + [x, last];
  }

  lemma SortOn<T>(s: seq<T>, x: T, key: T -> real)
    ensures SortBy(s + [x], key) == Insert(SortBy(s, key), x, key)
  {
    assert (s + [x])[..|s|] == s;
  }

  /** A first list that belongs third. */
  lemma SortBefore<T>(s: seq<T>, sorted: seq<T>, last: T, x: T, key: T -> real)
    requires SortBy(s, key) == sorted + [last] && key(x) < key(last)
    requires sorted != [] ==> key(sorted[|sorted| - 1]) <= key(x)
    ensures SortBy(s + [x], key) == sorted + [x, last]
  {
    hide SortBy, Insert;
    SortOn(s, x, key);
    InsertBeforeLast(sorted, last, x, key);
  }

  lemma SortTwo<T>(a: T, b: T, key: T -> real)
    requires key(b) < key(a)
    ensures SortBy([a, b], key) == [b, a]
  {
    SortedAlready([a], key);
    hide SortBy, Insert;
    assert [] + [a] == [a];
    SortBefore([a], [], a, b, key);
    assert [a] + [b] == [a, b] && [] + [b, a] == [b, a];
  }

  lemma SortThree<T>(a: T, b: T, c: T, key: T -> real)
    requires key(b) <= key(c) < key(a)
    ensures SortBy([a, b, c], key) == [b, c, a]
  {
    hide SortBy, Insert;
    SortTwo(a, b, key);
    assert [b] + [a] == [b, a];
    SortBefore([a, b], [b], a, c, key);
    assert [a, b] + [c] == [a, b, c] && [b] + [c, a] == [b, c, a];
  }

  lemma SortFour<T>(a: T, b: T, c: T, d: T, key: T -> real)
    requires key(b) <= key(c) < key(a) <= key(d)
    ensures SortBy([a, b, c, d], key) == [b, c, a, d]
  {
    SortThree(a, b, c, key);
    hide SortBy, Insert;
    assert [a, b, c] + [d] == [a, b, c, d] && [b, c, a] + [d] == [b, c, a, d];
    SortOn([a, b, c], d, key);
    InsertLast([b, c, a], d, key);
  }

  lemma FivePlanes()
    ensures var s := Five(); Planes(s, 5.0, 50.0) == [[s[1]], [s[2]], [s[4], s[0]], [s[3]]]
  {
    var s := Five();
    FiveSubPlanes();
    FiveMeans();
    hide RaanPlanes, SubPlanes, AllSubPlanes, MeanRaan, SortBy;
    SortFour([s[4], s[0]], [s[1]], [s[2]], [s[3]], MeanRaan);
  }

  lemma FiveApart(x: Sat, y: Sat)
    requires x in Five() && y in Five() && OneCluster(Five(), 5.0, x, y)
    ensures x == y || (x.raan in {1.0, 359.0} && y.raan in {1.0, 359.0})
  {
    var s := Five();
    FiveClusters();
    assert Distinct(s) && OnCircle(s);
    hide RaanPlanes, Linked;
    RaanComponents(s, 5.0, x, y);
    var g :| 0 <= g < |RaanPlanes(s, 5.0)| && x in RaanPlanes(s, 5.0)[g] && y in RaanPlanes(s, 5.0)[g];
  }

  /** The plane around 0 degrees comes out between those at 170 and 190 degrees. The planes are not in order,
      and consecutive planes are not neighbours: on both sides from the plane at 170 degrees to the one around 0
      there is another plane between them. */
  lemma StraddlingPlaneIsMisplaced()
    ensures var s, planes := Five(), Planes(Five(), 5.0, 50.0);
            && Distinct(s) && OnCircle(s) && !InOrder(s, 5.0, 50.0)
            && planes == [[s[1]], [s[2]], [s[4], s[0]], [s[3]]]
            && s[0].raan < s[1].raan < s[2].raan < s[3].raan < s[4].raan
  {
    hide *;
    FiveSats();
    FivePlanes();
    FiveMisplaced();
  }

  lemma FiveMisplaced()
    ensures !InOrder(Five(), 5.0, 50.0)
  {
    var s := Five();
    FivePlanes();
    FiveSats();
    if OneCluster(s, 5.0, s[1], s[0]) {
      FiveApart(s[1], s[0]);
    }
    hide OneCluster, Planes, Five;
    var planes := Planes(s, 5.0, 50.0);
    assert s[1] in planes[0] && s[0] in planes[2];
  }
}

/** Rings within planes and index matchings between consecutive planes
    (satgonetem/utils/project_builder.py:584-691). */
module MeshLinks {
  import opened StableSort
  import opened Clusters
  import opened OrbitalPlanes

  datatype Direction = ORBITAL | ADJACENT

  /** One call that creates an inter-satellite link. */
  datatype Isl = Isl(a: Sat, b: Sat, direction: Direction)

  function Phase(s: Sat): real { s.phase }

  /** The first k links of the ring through a list. */
  function RingUpTo(s: seq<Sat>, k: nat): seq<Isl>
    requires k <= |s|
  {
    if k == 0 then [] else RingUpTo(s, k - 1) + [Isl(s[k - 1], s[Succ(k - 1, |s|)], ORBITAL)]
  }

  function Ring(plane: seq<Sat>): seq<Isl> {
    var s := SortBy(plane, Phase);
    if |s| < 2 then [] else RingUpTo(s, |s|)
  }

  function AllRings(planes: seq<seq<Sat>>): seq<Isl> {
    if planes == [] then [] else AllRings(planes[..|planes| - 1]) + Ring(planes[|planes| - 1])
  }

  /** Satellites of the same rank that are not too far apart. */
  function RungsUpTo(s: seq<Sat>, t: seq<Sat>, near: (Sat, Sat) -> bool, k: nat): seq<Isl>
    requires k <= |s| && k <= |t|
  {
    if k == 0 then []
    else RungsUpTo(s, t, near, k - 1) + if near(s[k - 1], t[k - 1]) then [Isl(s[k - 1], t[k - 1], ADJACENT)] else []
  }

  function Min(a: nat, b: nat): nat { if a <= b then a else b }

  function Rungs(a: seq<Sat>, b: seq<Sat>, near: (Sat, Sat) -> bool, minSize: nat): seq<Isl> {
    var s, t := SortBy(a, Phase), SortBy(b, Phase);
    if |s| < minSize || |t| < minSize then [] else RungsUpTo(s, t, near, Min(|s|, |t|))
  }

  /** The rungs between the first k + 1 planes. */
  function RungsBetween(planes: seq<seq<Sat>>, near: (Sat, Sat) -> bool, minSize: nat, k: nat): seq<Isl>
    requires k == 0 || k < |planes|
  {
    if k == 0 then [] else RungsBetween(planes, near, minSize, k - 1) + Rungs(planes[k - 1], planes[k], near, minSize)
  }

  function AllRungs(planes: seq<seq<Sat>>, near: (Sat, Sat) -> bool, minSize: nat): seq<Isl> {
    if |planes| < 2 then [] else RungsBetween(planes, near, minSize, |planes| - 1)
  }

  function Mesh(planes: seq<seq<Sat>>, near: (Sat, Sat) -> bool, minSize: nat, orbital: bool, adjacent: bool)
    : seq<Isl>
  {
    (if orbital then AllRings(planes) else []) + if adjacent then AllRungs(planes, near, minSize) else []
  }

  /** How often a satellite is an end of a created link. */
  function Degree(links: seq<Isl>, x: Sat): nat {
    if links == [] then 0
    else
      var l := links[|links| - 1];
      Degree(links[..|links| - 1], x) + (if l.a == x then 1 else 0) + if l.b == x then 1 else 0
  }

  lemma {:induction false} DegreeAppend(a: seq<Isl>, b: seq<Isl>, x: Sat)
    ensures Degree(a + b, x) == Degree(a, x) + Degree(b, x)
  {
    if b == [] {
      assert a + b == a;
    } else {
      assert (a + b)[..|a + b| - 1] == a + b[..|b| - 1];
      DegreeAppend(a, b[..|b| - 1], x);
    }
  }

  lemma DegreeOneMore(a: seq<Isl>, l: Isl, x: Sat)
    ensures Degree(a + [l], x) == Degree(a, x) + (if l.a == x then 1 else 0) + if l.b == x then 1 else 0
  {
    assert (a + [l])[..|a|] == a;
  }

  // ---- Rings ----

  lemma {:induction false} RingPrefixDegree(s: seq<Sat>, k: nat, i: nat, x: Sat)
    requires Distinct(s) && k <= |s| && i < |s| && s[i] == x
    ensures Degree(RingUpTo(s, k), x) == (if i < k then 1 else 0) + if (if i ==
              0 then |s| - 1 else i - 1) < k then 1 else 0
  {
    if k > 0 {
      RingPrefixDegree(s, k - 1, i, x);
      DegreeOneMore(RingUpTo(s, k - 1), Isl(s[k - 1], s[Succ(k - 1, |s|)], ORBITAL), x);
    }
  }

  lemma {:induction false} RingOutside(s: seq<Sat>, k: nat, x: Sat)
    requires k <= |s| && x !in s
    ensures Degree(RingUpTo(s, k), x) == 0
  {
    if k > 0 {
      RingOutside(s, k - 1, x);
      DegreeOneMore(RingUpTo(s, k - 1), Isl(s[k - 1], s[Succ(k - 1, |s|)], ORBITAL), x);
    }
  }

  lemma SortedPlane(plane: seq<Sat>)
    requires Distinct(plane)
    ensures var s := SortBy(plane, Phase);
            Distinct(s) && |s| == |plane| && forall x :: x in s <==> x in plane
  {
    SortBySorts(plane, Phase);
    SamePermutation(plane, SortBy(plane, Phase));
  }

  /** In a plane of two or more, every satellite is an end of exactly two ring links. */
  lemma RingDegree(plane: seq<Sat>, x: Sat)
    requires Distinct(plane)
    ensures Degree(Ring(plane), x) == if x in plane && |plane| >= 2 then 2 else 0
  {
    var s := SortBy(plane, Phase);
    SortedPlane(plane);
    if x in plane {
      var i :| 0 <= i < |s| && s[i] == x;
      RingPrefixDegree(s, |s|, i, x);
    } else {
      RingOutside(s, |s|, x);
    }
  }

  /** The planes are disjoint lists of distinct satellites. */
  ghost predicate Disjoint(planes: seq<seq<Sat>>) {
    && (forall g | 0 <= g < |planes| :: Distinct(planes[g]))
    && forall g, h, x | 0 <= g < |planes| && 0 <= h < |planes| && x in planes[g] && x in planes[h] :: g == h
  }

  lemma {:induction false} AllRingsDegree(planes: seq<seq<Sat>>, x: Sat)
    requires Disjoint(planes)
    ensures forall g | 0 <= g < |planes|
              && x in planes[g] :: Degree(AllRings(planes), x) == if |planes[g]| >= 2 then 2 else 0
    ensures (forall g | 0 <= g < |planes| :: x !in planes[g]) ==> Degree(AllRings(planes), x) == 0
  {
    if planes != [] {
      var n := |planes| - 1;
      FrontDisjoint(planes);
      AllRingsDegree(planes[..n], x);
      RingDegree(planes[n], x);
      DegreeAppend(AllRings(planes[..n]), Ring(planes[n]), x);
      forall g | 0 <= g < |planes| && x in planes[g]
        ensures Degree(AllRings(planes), x) == if |planes[g]| >= 2 then 2 else 0
      {
        if g < n {
          assert x in planes[..n][g] && x !in planes[n];
        } else {
          assert forall h | 0 <= h < n :: x !in planes[..n][h];
        }
      }
    }
  }

  lemma FrontDisjoint(planes: seq<seq<Sat>>)
    requires Disjoint(planes) && planes != []
    ensures Disjoint(planes[..|planes| - 1])
  {
    var front := planes[..|planes| - 1];
    forall g, h, x | 0 <= g < |front| && 0 <= h < |front| && x in front[g] && x in front[h] ensures g == h {
      assert x in planes[g] && x in planes[h];
    }
  }

  // ---- Rungs ----

  lemma {:induction false} RungsPrefixDegree(s: seq<Sat>, t: seq<Sat>, near: (Sat, Sat) -> bool, k: nat, x: Sat)
    requires Distinct(s) && Distinct(t) && k <= |s| && k <= |t| && !(x in s && x in t)
    ensures Degree(RungsUpTo(s, t, near, k), x) <= 1
    ensures x !in s[..k] && x !in t[..k] ==> Degree(RungsUpTo(s, t, near, k), x) == 0
  {
    if k > 0 {
      RungsPrefixDegree(s, t, near, k - 1, x);
      assert s[..k] == s[..k - 1] + [s[k - 1]] && t[..k] == t[..k - 1] + [t[k - 1]];
      assert s[k - 1] !in s[..k - 1] && t[k - 1] !in t[..k - 1];
      assert (x in s[..k - 1] ==> x in s) && (x in t[..k - 1] ==> x in t);
      if near(s[k - 1], t[k - 1]) {
        assert s[k - 1] in s && t[k - 1] in t;
        DegreeOneMore(RungsUpTo(s, t, near, k - 1), Isl(s[k - 1], t[k - 1], ADJACENT), x);
      } else {
        assert RungsUpTo(s, t, near, k) == RungsUpTo(s, t, near, k - 1);
      }
    }
  }

  /** The links between two planes are a matching. */
  lemma RungsDegree(a: seq<Sat>, b: seq<Sat>, near: (Sat, Sat) -> bool, minSize: nat, x: Sat)
    requires Distinct(a) && Distinct(b) && !(x in a && x in b)
    ensures Degree(Rungs(a, b, near, minSize), x) <= if x in a || x in b then 1 else 0
  {
    SortedPlane(a);
    SortedPlane(b);
    var s, t := SortBy(a, Phase), SortBy(b, Phase);
    RungsPrefixDegree(s, t, near, Min(|s|, |t|), x);
  }

  /** A satellite has links to the plane before its own and to the plane after, one each at most. */
  lemma {:induction false} RungsBetweenDegree(planes: seq<seq<Sat>>, near: (Sat, Sat) -> bool, minSize: nat,
      k: nat, x: Sat)
    requires Disjoint(planes) && (k == 0 || k < |planes|)
    ensures Degree(RungsBetween(planes, near, minSize, k), x) <= 2
    ensures forall g | 0 <= g < |planes| && x in planes[g]
              && g >= k :: Degree(RungsBetween(planes, near, minSize, k), x) <= if g == k then 1 else 0
    ensures (forall g | 0 <= g < |planes| :: x !in planes[g]) ==> Degree(RungsBetween(planes, near, minSize, k), x) == 0
  {
    if k > 0 {
      RungsBetweenDegree(planes, near, minSize, k - 1, x);
      assert !(x in planes[k - 1] && x in planes[k]);
      RungsDegree(planes[k - 1], planes[k], near, minSize, x);
      DegreeAppend(RungsBetween(planes, near, minSize, k - 1), Rungs(planes[k - 1], planes[k], near, minSize), x);
    }
  }

  lemma DisjointPlanes(sats: seq<Sat>, t: real, m: real)
    requires Distinct(sats) && OnCircle(sats)
    ensures Disjoint(Planes(sats, t, m))
  {
    var planes := Planes(sats, t, m);
    PlanesHoldAll(sats, t, m);
    SamePermutation(sats, Flatten(planes));
    forall g | 0 <= g < |planes| ensures Distinct(planes[g]) {
      assert planes[g] in planes;
      OneGroup(planes, planes[g][0], g, g);
    }
    forall g, h, x | 0 <= g < |planes| && 0 <= h < |planes| && x in planes[g] && x in planes[h] ensures g == h {
      OneGroup(planes, x, g, h);
    }
  }

  /** The mesh over any satellites: two orbital link creations per satellite of a plane of two or more, none for
      a satellite alone in its plane, and four link creations per satellite at most. */
  lemma MeshDegree(sats: seq<Sat>, t: real, m: real, near: (Sat, Sat) -> bool, minSize: nat, x: Sat)
    requires Distinct(sats) && OnCircle(sats) && x in sats
    ensures var planes := Planes(sats, t, m);
            && Degree(Mesh(planes, near, minSize, true, true), x) <= 4
            && exists g :: 0 <= g < |planes| && x in planes[g]
                && Degree(AllRings(planes), x) == if |planes[g]| >= 2 then 2 else 0
  {
    var planes := Planes(sats, t, m);
    DisjointPlanes(sats, t, m);
    var g := ExactlyOnePlane(sats, t, m, x);
    hide Planes, Disjoint, Distinct, OnCircle, AllRings, RungsBetween;
    AllRingsDegree(planes, x);
    RungsAtMostTwo(planes, near, minSize, x);
    DegreeAppend(AllRings(planes), AllRungs(planes, near, minSize), x);
  }

  lemma RungsAtMostTwo(planes: seq<seq<Sat>>, near: (Sat, Sat) -> bool, minSize: nat, x: Sat)
    requires Disjoint(planes)
    ensures Degree(AllRungs(planes, near, minSize), x) <= 2
  {
    hide Disjoint, RungsBetween;
    if |planes| >= 2 {
      RungsBetweenDegree(planes, near, minSize, |planes| - 1, x);
    }
  }

  // ---- Which links there are ----

  /** The second is next to the first by phase in a plane of two or more; next to the last one is the first. */
  ghost predicate Follows(plane: seq<Sat>, a: Sat, b: Sat) {
    && |plane| >= 2 && a in plane && b in plane
    && (RankOf(plane, Phase, b) == RankOf(plane, Phase, a) + 1
        || (RankOf(plane, Phase, a) == |plane| - 1 && RankOf(plane, Phase, b) == 0))
  }

  /** The two have the same rank by phase, in large enough planes, and are near. */
  ghost predicate Faces(p: seq<Sat>, q: seq<Sat>, near: (Sat, Sat) -> bool, minSize: nat, a: Sat, b: Sat) {
    && |p| >= minSize && |q| >= minSize && a in p && b in q
    && RankOf(p, Phase, a) == RankOf(q, Phase, b) && near(a, b)
  }

  ghost predicate FacesAt(planes: seq<seq<Sat>>, i: nat, near: (Sat, Sat) -> bool, minSize: nat, a: Sat, b: Sat) {
    i + 1 < |planes| && Faces(planes[i], planes[i + 1], near, minSize, a, b)
  }

  /** The links the mesh is to have. */
  ghost predicate Wanted(planes: seq<seq<Sat>>, near: (Sat, Sat) -> bool, minSize: nat, orbital: bool,
                         adjacent: bool, l: Isl)
  {
    match l.direction
    case ORBITAL => orbital && exists i :: 0 <= i < |planes| && Follows(planes[i], l.a, l.b)
    case ADJACENT => adjacent && exists i: nat :: FacesAt(planes, i, near, minSize, l.a, l.b)
  }

  ghost function Once(b: bool): nat { if b then 1 else 0 }

  ghost predicate RingHas(s: seq<Sat>, k: nat, l: Isl)
    requires k <= |s|
  {
    l.direction == ORBITAL && exists i :: 0 <= i < k && s[i] == l.a && s[Succ(i, |s|)] == l.b
  }

  lemma {:induction false} RingCount(s: seq<Sat>, k: nat, l: Isl)
    requires Distinct(s) && k <= |s|
    ensures multiset(RingUpTo(s, k))[l] == Once(RingHas(s, k, l))
  {
    if k > 0 {
      RingCount(s, k - 1, l);
      assert RingHas(s, k, l)
             <==> RingHas(s, k - 1, l) || l == Isl(s[k - 1], s[Succ(k - 1, |s|)], ORBITAL);
    }
  }

  /** Sorted by phase, a plane has every satellite in the place of its rank. */
  lemma InPlace(plane: seq<Sat>)
    requires Distinct(plane)
    ensures |SortBy(plane, Phase)| == |plane| && Distinct(SortBy(plane, Phase))
    ensures RanksIn(plane, SortBy(plane, Phase))
  {
    SortedPlane(plane);
    var s := SortBy(plane, Phase);
    forall x | x in plane ensures RankOf(plane, Phase, x) < |s| && s[RankOf(plane, Phase, x)] == x {
      RankExact(plane, Phase, x, RankOf(plane, Phase, x));
    }
    forall i | 0 <= i < |s| ensures s[i] in plane && RankOf(plane, Phase, s[i]) == i {
      RankExact(plane, Phase, s[i], i);
    }
  }

  ghost predicate RanksIn(plane: seq<Sat>, s: seq<Sat>) {
    && (forall x | x in plane :: RankOf(plane, Phase, x) < |s| && s[RankOf(plane, Phase, x)] == x)
    && forall i | 0 <= i < |s| :: s[i] in plane && RankOf(plane, Phase, s[i]) == i
  }

  lemma RingIsFollows(plane: seq<Sat>, s: seq<Sat>, l: Isl)
    requires RanksIn(plane, s) && |s| == |plane| >= 2
    ensures RingHas(s, |s|, l) <==> l.direction == ORBITAL && Follows(plane, l.a, l.b)
  {
    hide RankOf;
    assert forall i: nat | i < |s| :: Succ(i, |s|) == if i + 1 < |s| then i + 1 else 0;
    if Follows(plane, l.a, l.b) {
      var i := RankOf(plane, Phase, l.a);
      assert s[i] == l.a && s[Succ(i, |s|)] == l.b;
    }
  }

  /** The ring through a plane has each of its links once. */
  lemma RingExact(plane: seq<Sat>, l: Isl)
    requires Distinct(plane)
    ensures multiset(Ring(plane))[l] == Once(l.direction == ORBITAL && Follows(plane, l.a, l.b))
  {
    var s := SortBy(plane, Phase);
    InPlace(plane);
    hide RankOf, SortBy, RanksIn, RingUpTo, RingHas;
    if |s| >= 2 {
      RingCount(s, |s|, l);
      RingIsFollows(plane, s, l);
    }
  }

  lemma NotInOther(planes: seq<seq<Sat>>, l: Isl, i: nat, j: nat)
    requires Disjoint(planes) && i < j < |planes| && Follows(planes[i], l.a, l.b)
    ensures !Follows(planes[j], l.a, l.b)
  {
  }

  ghost predicate SomeFollows(planes: seq<seq<Sat>>, l: Isl) {
    exists i :: 0 <= i < |planes| && Follows(planes[i], l.a, l.b)
  }

  lemma SomeMore(planes: seq<seq<Sat>>, l: Isl)
    requires Disjoint(planes) && planes != []
    ensures var n := |planes| - 1;
            && (SomeFollows(planes, l) <==> SomeFollows(planes[..n], l) || Follows(planes[n], l.a, l.b))
            && !(SomeFollows(planes[..n], l) && Follows(planes[n], l.a, l.b))
  {
    var n := |planes| - 1;
    forall i: nat | i < n && Follows(planes[i], l.a, l.b) ensures !Follows(planes[n], l.a, l.b) {
      NotInOther(planes, l, i, n);
    }
    hide Follows, Disjoint;
    assert forall i | 0 <= i < n :: planes[..n][i] == planes[i];
  }

  lemma {:induction false} RingsExact(planes: seq<seq<Sat>>, l: Isl)
    requires Disjoint(planes)
    ensures multiset(AllRings(planes))[l] == Once(l.direction == ORBITAL && SomeFollows(planes, l))
  {
    if planes != [] {
      var n := |planes| - 1;
      FrontDisjoint(planes);
      RingsExact(planes[..n], l);
      RingExact(planes[n], l);
      SomeMore(planes, l);
      hide Ring, Follows, Disjoint, SomeFollows;
      CountAppend(AllRings(planes[..n]), Ring(planes[n]), l);
    }
  }

  ghost predicate RungHas(s: seq<Sat>, t: seq<Sat>, near: (Sat, Sat) -> bool, k: nat, l: Isl)
    requires k <= |s| && k <= |t|
  {
    l.direction == ADJACENT && exists i :: 0 <= i < k && s[i] == l.a && t[i] == l.b && near(s[i], t[i])
  }

  lemma {:induction false} RungCount(s: seq<Sat>, t: seq<Sat>, near: (Sat, Sat) -> bool, k: nat, l: Isl)
    requires Distinct(s) && k <= |s| && k <= |t|
    ensures multiset(RungsUpTo(s, t, near, k))[l] == Once(RungHas(s, t, near, k, l))
  {
    if k > 0 {
      RungCount(s, t, near, k - 1, l);
      assert RungHas(s, t, near, k, l)
             <==> RungHas(s, t, near, k - 1, l)
                  || (near(s[k - 1], t[k - 1]) && l == Isl(s[k - 1], t[k - 1], ADJACENT));
    }
  }

  lemma RungIsFacing(p: seq<Sat>, q: seq<Sat>, s: seq<Sat>, t: seq<Sat>, near: (Sat, Sat) -> bool, l: Isl)
    requires RanksIn(p, s) && RanksIn(q, t)
    ensures RungHas(s, t, near, Min(|s|, |t|), l)
            <==> && l.direction == ADJACENT && l.a in p && l.b in q
                 && RankOf(p, Phase, l.a) == RankOf(q, Phase, l.b) && near(l.a, l.b)
  {
    hide RankOf;
    if l.a in p && l.b in q && RankOf(p, Phase, l.a) == RankOf(q, Phase, l.b) {
      var i := RankOf(p, Phase, l.a);
      assert s[i] == l.a && t[i] == l.b;
    }
  }

  lemma RungsOnce(p: seq<Sat>, q: seq<Sat>, near: (Sat, Sat) -> bool, minSize: nat, l: Isl)
    requires Distinct(p) && Distinct(q)
    ensures multiset(Rungs(p, q, near, minSize))[l]
            == Once(l.direction == ADJACENT && Faces(p, q, near, minSize, l.a, l.b))
  {
    var s, t := SortBy(p, Phase), SortBy(q, Phase);
    InPlace(p);
    InPlace(q);
    hide RankOf, SortBy, RanksIn, RungsUpTo, RungHas, Distinct;
    RungCount(s, t, near, Min(|s|, |t|), l);
    RungIsFacing(p, q, s, t, near, l);
  }

  lemma FacesOnce(planes: seq<seq<Sat>>, near: (Sat, Sat) -> bool, minSize: nat, l: Isl, i: nat, j: nat)
    requires Disjoint(planes) && i < j && FacesAt(planes, i, near, minSize, l.a, l.b)
    ensures !FacesAt(planes, j, near, minSize, l.a, l.b)
  {
  }

  /** They face each other in two of the first k + 1 planes. */
  ghost predicate FacedBefore(planes: seq<seq<Sat>>, k: nat, near: (Sat, Sat) -> bool, minSize: nat, l: Isl) {
    exists i: nat :: i < k && FacesAt(planes, i, near, minSize, l.a, l.b)
  }

  lemma FacedMore(planes: seq<seq<Sat>>, k: nat, near: (Sat, Sat) -> bool, minSize: nat, l: Isl)
    requires Disjoint(planes) && 0 < k < |planes|
    ensures var now := Faces(planes[k - 1], planes[k], near, minSize, l.a, l.b);
            && (FacedBefore(planes, k, near, minSize, l) <==> FacedBefore(planes, k - 1, near, minSize, l) || now)
            && !(FacedBefore(planes, k - 1, near, minSize, l) && now)
  {
    assert FacesAt(planes, k - 1, near, minSize, l.a, l.b)
           <==> Faces(planes[k - 1], planes[k], near, minSize, l.a, l.b);
    forall i: nat | i < k - 1 && FacesAt(planes, i, near, minSize, l.a, l.b)
      ensures !FacesAt(planes, k - 1, near, minSize, l.a, l.b)
    {
      FacesOnce(planes, near, minSize, l, i, k - 1);
    }
    hide Faces, FacesAt, Disjoint;
  }

  lemma {:induction false} RungsBetweenExact(planes: seq<seq<Sat>>, near: (Sat, Sat) -> bool, minSize: nat, k: nat,
                                             l: Isl)
    requires Disjoint(planes) && (k == 0 || k < |planes|)
    ensures multiset(RungsBetween(planes, near, minSize, k))[l]
            == Once(l.direction == ADJACENT && FacedBefore(planes, k, near, minSize, l))
  {
    if k > 0 {
      RungsBetweenExact(planes, near, minSize, k - 1, l);
      RungsOnce(planes[k - 1], planes[k], near, minSize, l);
      FacedMore(planes, k, near, minSize, l);
      hide Rungs, Faces, FacedBefore, Disjoint;
      CountAppend(RungsBetween(planes, near, minSize, k - 1), Rungs(planes[k - 1], planes[k], near, minSize), l);
    }
  }

  lemma CountAppend(a: seq<Isl>, b: seq<Isl>, l: Isl)
    ensures multiset(a + b)[l] == multiset(a)[l] + multiset(b)[l]
  {
  }

  lemma FacedAnywhere(planes: seq<seq<Sat>>, near: (Sat, Sat) -> bool, minSize: nat, l: Isl)
    ensures (exists i: nat :: FacesAt(planes, i, near, minSize, l.a, l.b))
            <==> |planes| >= 2 && FacedBefore(planes, |planes| - 1, near, minSize, l)
  {
    hide Faces;
    if i: nat :| FacesAt(planes, i, near, minSize, l.a, l.b) {
      assert i < |planes| - 1;
    }
  }

  lemma AllRungsExact(planes: seq<seq<Sat>>, near: (Sat, Sat) -> bool, minSize: nat, l: Isl)
    requires Disjoint(planes)
    ensures multiset(AllRungs(planes, near, minSize))[l]
            == Once(l.direction == ADJACENT && exists i: nat :: FacesAt(planes, i, near, minSize, l.a, l.b))
  {
    FacedAnywhere(planes, near, minSize, l);
    hide Disjoint, FacesAt, FacedBefore, RungsBetween;
    if |planes| >= 2 {
      RungsBetweenExact(planes, near, minSize, |planes| - 1, l);
    }
  }

  lemma MeshCount(planes: seq<seq<Sat>>, near: (Sat, Sat) -> bool, minSize: nat, orbital: bool, adjacent: bool, l: Isl)
    ensures multiset(Mesh(planes, near, minSize, orbital, adjacent))[l]
            == (if orbital then multiset(AllRings(planes))[l] else 0)
               + if adjacent then multiset(AllRungs(planes, near, minSize))[l] else 0
  {
    hide AllRings, AllRungs;
    var none: seq<Isl> := [];
    CountAppend(if orbital then AllRings(planes) else none, if adjacent then AllRungs(planes, near, minSize) else none,
                l);
  }

  /** Every link of the mesh, for every choice of the two flags: each that is wanted is created once, and no other. */
  lemma MeshExact(planes: seq<seq<Sat>>, near: (Sat, Sat) -> bool, minSize: nat, orbital: bool, adjacent: bool, l: Isl)
    requires Disjoint(planes)
    ensures multiset(Mesh(planes, near, minSize, orbital, adjacent))[l]
            == Once(Wanted(planes, near, minSize, orbital, adjacent, l))
  {
    RingsExact(planes, l);
    AllRungsExact(planes, near, minSize, l);
    MeshCount(planes, near, minSize, orbital, adjacent, l);
    hide Disjoint, AllRings, AllRungs, Follows, FacesAt, Mesh;
  }

  /** So for the planes of a grouping. */
  lemma MeshOfPlanes(sats: seq<Sat>, m: real, near: (Sat, Sat) -> bool, minSize: nat, orbital: bool, adjacent: bool)
    requires OnCircle(sats)
    ensures Distinct(sats) ==>
              forall l :: multiset(Mesh(Planes(sats, 5.0, m), near, minSize, orbital, adjacent))[l]
                          == Once(Wanted(Planes(sats, 5.0, m), near, minSize, orbital, adjacent, l))
  {
    hide *;
    if Distinct(sats) {
      DisjointPlanes(sats, 5.0, m);
      forall l ensures multiset(Mesh(Planes(sats, 5.0, m), near, minSize, orbital, adjacent))[l]
                       == Once(Wanted(Planes(sats, 5.0, m), near, minSize, orbital, adjacent, l))
      {
        MeshExact(Planes(sats, 5.0, m), near, minSize, orbital, adjacent, l);
      }
    }
  }

  // ---- The loops ----

  lemma NextIndex(i: nat, n: nat)
    requires i < n
    ensures (i + 1) % n == Succ(i, n)
  {
    if i + 1 < n {
      assert (i + 1) % n == i + 1;
    }
  }

  method AddRing(plane: seq<Sat>) returns (links: seq<Isl>)
    ensures links == Ring(plane)
  {
    var s := SortBy(plane, Phase);
    links := [];
    if |s| < 2 {
      return;
    }
    for i := 0 to |s|
      invariant links == RingUpTo(s, i)
    {
      NextIndex(i, |s|);
      links := links + [Isl(s[i], s[(i + 1) % |s|], ORBITAL)];
    }
  }

  method AddRungs(a: seq<Sat>, b: seq<Sat>, near: (Sat, Sat) -> bool, minSize: nat) returns (links: seq<Isl>)
    ensures links == Rungs(a, b, near, minSize)
  {
    var s, t := SortBy(a, Phase), SortBy(b, Phase);
    links := [];
    if |s| < minSize || |t| < minSize {
      return;
    }
    for i := 0 to Min(|s|, |t|)
      invariant links == RungsUpTo(s, t, near, i)
    {
      if near(s[i], t[i]) {
        links := links + [Isl(s[i], t[i], ADJACENT)];
      }
    }
  }

  method AddAllRings(planes: seq<seq<Sat>>) returns (links: seq<Isl>)
    ensures links == AllRings(planes)
  {
    links := [];
    for i := 0 to |planes|
      invariant links == AllRings(planes[..i])
    {
      assert planes[..i + 1][..i] == planes[..i];
      var ring := AddRing(planes[i]);
      links := links + ring;
    }
    assert planes[..|planes|] == planes;
  }

  method AddAllRungs(planes: seq<seq<Sat>>, near: (Sat, Sat) -> bool, minSize: nat) returns (links: seq<Isl>)
    requires |planes| >= 2
    ensures links == AllRungs(planes, near, minSize)
  {
    links := [];
    for i := 0 to |planes| - 1
      invariant links == RungsBetween(planes, near, minSize, i)
    {
      var more := AddRungs(planes[i], planes[i + 1], near, minSize);
      links := links + more;
    }
  }

  /** add_mesh_links without its ground links; sats are the satellites whose elements are known. */
  method AddMeshLinks(satellites: nat, sats: seq<Sat>, m: real, near: (Sat, Sat) -> bool, minSize: nat,
                      orbital: bool, adjacent: bool) returns (links: seq<Isl>)
    requires OnCircle(sats) && |sats| <= satellites
    ensures links == if satellites < 2 then [] else Mesh(Planes(sats, 5.0, m), near, minSize, orbital, adjacent)
    ensures Distinct(sats) ==>
              forall l :: multiset(links)[l]
                          == Once(satellites >= 2 && Wanted(Planes(sats, 5.0, m), near, minSize, orbital, adjacent, l))
  {
    MeshOfPlanes(sats, m, near, minSize, orbital, adjacent);
    hide Planes, OnCircle, Wanted, Distinct;
    links := [];
    if satellites < 2 {
      return;
    }
    var planes := GroupByPlane(sats, 5.0, m);
    if |planes| == 0 {
      return;
    }
    if orbital {
      links := AddAllRings(planes);
    }
    if adjacent && |planes| >= 2 {
      var rungs := AddAllRungs(planes, near, minSize);
      links := links + rungs;
    }
  }
}

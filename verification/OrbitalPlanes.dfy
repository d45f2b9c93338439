/** Splitting a list between neighbours that are not joined, and what that has to do with a closeness relation
    (the two loops of satgonetem/utils/project_builder.py:533-567). */
module Clusters {
  import opened StableSort

  /** A list cut wherever two neighbours are not joined. */
  function Split<T>(s: seq<T>, joined: (T, T) -> bool): seq<seq<T>> {
    if |s| <= 1 then (if s == [] then [] else [s])
    else
      var n := |s| - 1;
      var groups := Split(s[..n], joined);
      if groups != [] && joined(s[n - 1], s[n]) then groups[..|groups| - 1] + [groups[|groups| - 1] + [s[n]]]
      else groups + [[s[n]]]
  }

  /** The number of cuts up to an index. */
  function GroupOf<T>(s: seq<T>, joined: (T, T) -> bool, i: nat): nat
    requires i < |s|
  {
    if i == 0 then 0 else GroupOf(s, joined, i - 1) + if joined(s[i - 1], s[i]) then 0 else 1
  }

  lemma {:induction false} GroupOfPrefix<T>(s: seq<T>, joined: (T, T) -> bool, n: nat, i: nat)
    requires i < n <= |s|
    ensures GroupOf(s[..n], joined, i) == GroupOf(s, joined, i)
  {
    if i > 0 {
      GroupOfPrefix(s, joined, n, i - 1);
    }
  }

  lemma {:induction false} SplitCount<T>(s: seq<T>, joined: (T, T) -> bool)
    requires s != []
    ensures |Split(s, joined)| == GroupOf(s, joined, |s| - 1) + 1
  {
    if |s| > 1 {
      SplitCount(s[..|s| - 1], joined);
      GroupOfPrefix(s, joined, |s| - 1, |s| - 2);
    }
  }

  lemma {:induction false} NoEmptyGroup<T>(s: seq<T>, joined: (T, T) -> bool, g: nat)
    requires g < |Split(s, joined)|
    ensures Split(s, joined)[g] != []
  {
    if |s| > 1 {
      var before := Split(s[..|s| - 1], joined);
      if g < |before| {
        NoEmptyGroup(s[..|s| - 1], joined, g);
      }
    }
  }

  lemma NoEmptyGroups<T>(s: seq<T>, joined: (T, T) -> bool)
    ensures forall g | 0 <= g < |Split(s, joined)| :: Split(s, joined)[g] != []
  {
    forall g | 0 <= g < |Split(s, joined)| ensures Split(s, joined)[g] != [] {
      NoEmptyGroup(s, joined, g);
    }
  }

  /** The loop's step: the last group grows, or a new one starts. */
  lemma SplitStep<T>(s: seq<T>, joined: (T, T) -> bool, groups: seq<seq<T>>, current: seq<T>, i: nat)
    requires 0 < i < |s| && groups + [current] == Split(s[..i], joined)
    ensures Split(s[..i + 1], joined)
            == if joined(s[i - 1], s[i]) then groups + [current + [s[i]]] else groups + [current] + [[s[i]]]
  {
    assert s[..i + 1][..i] == s[..i];
    assert (groups + [current])[..|groups|] == groups;
  }

  /** The element at index i is in the group of that index. */
  lemma {:induction false} InGroup<T>(s: seq<T>, joined: (T, T) -> bool, i: nat)
    requires i < |s|
    ensures GroupOf(s, joined, i) < |Split(s, joined)| && s[i] in Split(s, joined)[GroupOf(s, joined, i)]
  {
    var n, groups := |s| - 1, Split(s, joined);
    SplitCount(s, joined);
    if i < n {
      var before := Split(s[..n], joined);
      SplitCount(s[..n], joined);
      InGroup(s[..n], joined, i);
      GroupOfPrefix(s, joined, n, i);
      GroupOfGrows(s, joined, i, n);
      var g := GroupOf(s, joined, i);
      assert s[i] in before[g];
      assert groups[g] == before[g] || groups[g] == before[g] + [s[n]];
    } else {
      var g := |groups| - 1;
      assert groups[g][|groups[g]| - 1] == s[i];
    }
  }

  /** A group has no other elements. */
  lemma {:induction false} FromGroup<T>(s: seq<T>, joined: (T, T) -> bool, g: nat, x: T) returns (i: nat)
    requires g < |Split(s, joined)| && x in Split(s, joined)[g]
    ensures i < |s| && s[i] == x && GroupOf(s, joined, i) == g
  {
    var n, groups := |s| - 1, Split(s, joined);
    SplitCount(s, joined);
    if n == 0 {
      i := 0;
    } else {
      var before := Split(s[..n], joined);
      SplitCount(s[..n], joined);
      if g < |before| && x in before[g] {
        i := FromGroup(s[..n], joined, g, x);
        GroupOfPrefix(s, joined, n, i);
      } else {
        i := n;
        GroupOfPrefix(s, joined, n, n - 1);
      }
    }
  }

  ghost predicate Together<T>(groups: seq<seq<T>>, x: T, y: T) {
    exists g :: 0 <= g < |groups| && x in groups[g] && y in groups[g]
  }

  lemma {:induction false} GroupOfGrows<T>(s: seq<T>, joined: (T, T) -> bool, i: nat, j: nat)
    requires i <= j < |s|
    ensures GroupOf(s, joined, i) <= GroupOf(s, joined, j)
    ensures GroupOf(s, joined, i) == GroupOf(s, joined, j) <==> forall k | i < k <= j :: joined(s[k - 1], s[k])
  {
    if i < j {
      GroupOfGrows(s, joined, i, j - 1);
    }
  }

  // ---- Chains ----

  /** Some elements, each close to the next, lead from x to y. */
  ghost predicate Chain<T>(within: seq<T>, close: (T, T) -> bool, path: seq<T>, x: T, y: T) {
    && path != [] && path[0] == x && path[|path| - 1] == y && (forall z | z in path :: z in within)
    && forall i | 0 <= i < |path| - 1 :: close(path[i], path[i + 1])
  }

  ghost predicate Linked<T(!new)>(within: seq<T>, close: (T, T) -> bool, x: T, y: T) {
    exists path :: Chain(within, close, path, x, y)
  }

  /** Close elements are in one group. */
  ghost predicate Respects<T>(s: seq<T>, joined: (T, T) -> bool, close: (T, T) -> bool) {
    forall i, j | 0 <= i < |s| && 0 <= j < |s| && close(s[i], s[j]) :: GroupOf(s, joined, i) == GroupOf(s, joined, j)
  }

  lemma {:induction false} ChainStays<T>(s: seq<T>, joined: (T, T) -> bool, close: (T, T) -> bool, path: seq<T>,
      i: nat, j: nat)
    requires Distinct(s) && Respects(s, joined, close) && i < |s| && j < |s| && Chain(s, close, path, s[i], s[j])
    ensures GroupOf(s, joined, i) == GroupOf(s, joined, j)
    decreases |path|
  {
    if |path| > 1 {
      var n := |path| - 1;
      assert path[n - 1] in path;
      var k :| 0 <= k < |s| && s[k] == path[n - 1];
      assert close(path[n - 1], path[n]);
      assert Chain(s, close, path[..n], s[i], s[k]);
      ChainStays(s, joined, close, path[..n], i, k);
    }
  }

  /** Joined neighbours are close, in both directions. */
  ghost predicate Implies<T(!new)>(joined: (T, T) -> bool, close: (T, T) -> bool) {
    forall x, y :: joined(x, y) ==> close(x, y) && close(y, x)
  }

  lemma ForwardChain<T(!new)>(s: seq<T>, joined: (T, T) -> bool, close: (T, T) -> bool, i: nat, j: nat)
    requires i <= j < |s| && Implies(joined, close) && forall k | i < k <= j :: joined(s[k - 1], s[k])
    ensures Linked(s, close, s[i], s[j])
  {
    var path := s[i..j + 1];
    forall k | 0 <= k < |path| - 1 ensures close(path[k], path[k + 1]) {
      var m := i + k + 1;
      assert joined(s[m - 1], s[m]);
    }
    assert Chain(s, close, path, s[i], s[j]);
  }

  lemma BackwardChain<T(!new)>(s: seq<T>, joined: (T, T) -> bool, close: (T, T) -> bool, i: nat, j: nat)
    requires i <= j < |s| && Implies(joined, close) && forall k | i < k <= j :: joined(s[k - 1], s[k])
    ensures Linked(s, close, s[j], s[i])
  {
    var back := seq(j + 1 - i, k requires 0 <= k < j + 1 - i => s[j - k]);
    forall k | 0 <= k < |back| - 1 ensures close(back[k], back[k + 1]) {
      var m := j - k;
      assert joined(s[m - 1], s[m]);
    }
    assert Chain(s, close, back, s[j], s[i]);
  }

  lemma TogetherLinked<T(!new)>(s: seq<T>, joined: (T, T) -> bool, close: (T, T) -> bool, x: T, y: T)
    requires Implies(joined, close) && Together(Split(s, joined), x, y)
    ensures Linked(s, close, x, y)
  {
    hide Linked, Implies, Split;
    var g :| 0 <= g < |Split(s, joined)| && x in Split(s, joined)[g] && y in Split(s, joined)[g];
    var i := FromGroup(s, joined, g, x);
    var j := FromGroup(s, joined, g, y);
    if i <= j {
      GroupOfGrows(s, joined, i, j);
      ForwardChain(s, joined, close, i, j);
    } else {
      GroupOfGrows(s, joined, j, i);
      BackwardChain(s, joined, close, j, i);
    }
  }

  lemma LinkedTogether<T(!new)>(s: seq<T>, joined: (T, T) -> bool, close: (T, T) -> bool, x: T, y: T)
    requires Distinct(s) && Respects(s, joined, close) && x in s && y in s && Linked(s, close, x, y)
    ensures Together(Split(s, joined), x, y)
  {
    hide Split, Respects, Chain, Distinct;
    var i :| 0 <= i < |s| && s[i] == x;
    var j :| 0 <= j < |s| && s[j] == y;
    var path :| Chain(s, close, path, x, y);
    ChainStays(s, joined, close, path, i, j);
    InGroup(s, joined, i);
    InGroup(s, joined, j);
  }

  /** If neighbours that are joined are close and close elements are never cut apart, the groups are exactly the
      connected components of closeness. */
  lemma Components<T(!new)>(s: seq<T>, joined: (T, T) -> bool, close: (T, T) -> bool, x: T, y: T)
    requires Distinct(s) && Respects(s, joined, close) && Implies(joined, close) && x in s && y in s
    ensures Together(Split(s, joined), x, y) <==> Linked(s, close, x, y)
  {
    hide Split, Respects, Implies, Distinct, Linked, Together;
    if Together(Split(s, joined), x, y) {
      TogetherLinked(s, joined, close, x, y);
    }
    if Linked(s, close, x, y) {
      LinkedTogether(s, joined, close, x, y);
    }
  }

  lemma LinkedSameElements<T(!new)>(a: seq<T>, b: seq<T>, close: (T, T) -> bool, x: T, y: T)
    requires forall z :: z in a <==> z in b
    ensures Linked(a, close, x, y) <==> Linked(b, close, x, y)
  {
    if path :| Chain(a, close, path, x, y) { assert Chain(b, close, path, x, y); }
    if path :| Chain(b, close, path, x, y) { assert Chain(a, close, path, x, y); }
  }

  lemma LinkedThrough<T(!new)>(within: seq<T>, close: (T, T) -> bool, x: T, y: T, z: T)
    requires Linked(within, close, x, y) && Linked(within, close, y, z)
    ensures Linked(within, close, x, z)
  {
    var p: seq<T> :| Chain(within, close, p, x, y);
    var q: seq<T> :| Chain(within, close, q, y, z);
    var path := p + q[1..];
    forall i | 0 <= i < |path| - 1 ensures close(path[i], path[i + 1]) {
      if i < |p| - 1 {
        assert close(p[i], p[i + 1]);
      } else {
        assert close(q[i - |p| + 1], q[i - |p| + 2]);
      }
    }
    assert Chain(within, close, path, x, z);
  }

  lemma LinkedBack<T(!new)>(within: seq<T>, close: (T, T) -> bool, x: T, y: T)
    requires Linked(within, close, x, y) && forall a, b :: close(a, b) == close(b, a)
    ensures Linked(within, close, y, x)
  {
    var p: seq<T> :| Chain(within, close, p, x, y);
    var path := seq(|p|, k requires 0 <= k < |p| => p[|p| - 1 - k]);
    forall i | 0 <= i < |path| - 1 ensures close(path[i], path[i + 1]) {
      var k := |p| - 2 - i;
      assert close(p[k], p[k + 1]);
    }
    assert Chain(within, close, path, y, x);
  }

  // ---- The groups hold the list ----

  function Flatten<T>(groups: seq<seq<T>>): seq<T> {
    if groups == [] then [] else Flatten(groups[..|groups| - 1]) + groups[|groups| - 1]
  }

  lemma FlattenLast<T>(groups: seq<seq<T>>, last: seq<T>)
    ensures Flatten(groups + [last]) == Flatten(groups) + last
  {
    assert (groups + [last])[..|groups|] == groups;
  }

  lemma FlattenLonger<T>(groups: seq<seq<T>>, x: T)
    requires groups != []
    ensures Flatten(groups[..|groups| - 1] + [groups[|groups| - 1] + [x]]) == Flatten(groups) + [x]
  {
    FlattenLast(groups[..|groups| - 1], groups[|groups| - 1] + [x]);
  }

  /** The list is split before its last element, or that element joins the last group. */
  lemma SplitLast<T>(s: seq<T>, joined: (T, T) -> bool)
    requires s != []
    ensures var before, x := Split(s[..|s| - 1], joined), s[|s| - 1];
            Split(s, joined) == before + [[x]]
            || (before != [] && Split(s, joined) == before[..|before| - 1] + [before[|before| - 1] + [x]])
  {
    if |s| == 1 {
      assert s == [s[0]] && [] + [[s[0]]] == [s];
    }
  }

  lemma {:induction false} SplitFlat<T>(s: seq<T>, joined: (T, T) -> bool)
    ensures Flatten(Split(s, joined)) == s
  {
    if s != [] {
      var n := |s| - 1;
      SplitLast(s, joined);
      SplitFlat(s[..n], joined);
      hide *;
      var before := Split(s[..n], joined);
      assert s == s[..n] + [s[n]];
      FlattenLast(before, [s[n]]);
      if before != [] {
        FlattenLonger(before, s[n]);
      }
    }
  }

  lemma {:induction false} FlattenAppend<T>(a: seq<seq<T>>, b: seq<seq<T>>)
    ensures Flatten(a + b) == Flatten(a) + Flatten(b)
  {
    if b == [] {
      assert a + b == a;
    } else {
      var n := |b| - 1;
      FlattenAppend(a, b[..n]);
      assert (a + b)[..|a| + n] == a + b[..n];
    }
  }

  lemma {:induction false} FlattenMembers<T>(groups: seq<seq<T>>, x: T)
    ensures x in Flatten(groups) <==> exists g :: 0 <= g < |groups| && x in groups[g]
  {
    if groups != [] {
      var n := |groups| - 1;
      FlattenMembers(groups[..n], x);
      if g :| 0 <= g < |groups| && x in groups[g] {
        assert g < n ==> x in groups[..n][g];
      }
      if x in Flatten(groups[..n]) {
        var g :| 0 <= g < n && x in groups[..n][g];
        assert x in groups[g];
      }
    }
  }

  lemma DistinctParts<T>(a: seq<T>, b: seq<T>, x: T)
    requires Distinct(a + b)
    ensures Distinct(a) && Distinct(b) && !(x in a && x in b)
  {
    assert forall i | 0 <= i < |a| :: (a + b)[i] == a[i];
    assert forall i | 0 <= i < |b| :: (a + b)[|a| + i] == b[i];
  }

  /** In a flat list of distinct elements every element is in one group only, once. */
  lemma {:induction false} OneGroup<T>(groups: seq<seq<T>>, x: T, g: nat, h: nat)
    requires Distinct(Flatten(groups)) && g < |groups| && h < |groups| && x in groups[g] && x in groups[h]
    ensures g == h && Distinct(groups[g])
  {
    var n := |groups| - 1;
    DistinctParts(Flatten(groups[..n]), groups[n], x);
    if g < n && h < n {
      OneGroup(groups[..n], x, g, h);
    } else {
      FlattenMembers(groups[..n], x);
      assert forall k | 0 <= k < n :: groups[..n][k] == groups[k];
    }
  }
}

/** Orbital planes: clusters on the circle of ascending nodes, then on the line of altitudes
    (satgonetem/utils/project_builder.py:486-581). */
module OrbitalPlanes {
  import opened StableSort
  import opened Clusters

  /** A satellite whose elements are known; raan is in degrees, at least 0 and below 360. */
  datatype Sat = Sat(id: nat, raan: real, phase: real, altitude: real)

  function Raan(s: Sat): real { s.raan }

  function Altitude(s: Sat): real { s.altitude }

  predicate OnCircle(sats: seq<Sat>) {
    forall i | 0 <= i < |sats| :: 0.0 <= sats[i].raan < 360.0
  }

  /** (b - a) % 360 for two angles. */
  function Gap(a: Sat, b: Sat): real {
    if b.raan >= a.raan then b.raan - a.raan else b.raan - a.raan + 360.0
  }

  /** The gap from a satellite to the next is below the threshold. */
  function NearRaan(t: real): (Sat, Sat) -> bool {
    (a: Sat, b: Sat) => Gap(a, b) < t
  }

  /** The circular distance is below the threshold. */
  function CloseRaan(t: real): (Sat, Sat) -> bool {
    (a: Sat, b: Sat) => Gap(a, b) < t || Gap(b, a) < t
  }

  function NearAltitude(m: real): (Sat, Sat) -> bool {
    (a: Sat, b: Sat) => b.altitude - a.altitude < m
  }

  function CloseAltitude(m: real): (Sat, Sat) -> bool {
    (a: Sat, b: Sat) => (if a.altitude <= b.altitude then b.altitude - a.altitude else a.altitude - b.altitude) < m
  }

  function Succ(i: nat, n: nat): nat
    requires i < n
  {
    if i + 1 == n then 0 else i + 1
  }

  function GapAfter(s: seq<Sat>, i: nat): real
    requires i < |s|
  {
    Gap(s[i], s[Succ(i, |s|)])
  }

  /** The index of the first largest gap among the first k. */
  function Largest(s: seq<Sat>, k: nat): (b: nat)
    requires 0 < k <= |s|
    ensures b < k
  {
    if k == 1 then 0 else if GapAfter(s, k - 1) > GapAfter(s, Largest(s, k - 1)) then k - 1 else Largest(s, k - 1)
  }

  lemma {:induction false} LargestIsLargest(s: seq<Sat>, k: nat, i: nat)
    requires 0 < k <= |s| && i < k
    ensures GapAfter(s, i) <= GapAfter(s, Largest(s, k))
  {
    if k > 1 && i < k - 1 {
      LargestIsLargest(s, k - 1, i);
    } else if k > 1 {
      LargestIsLargest(s, k - 1, 0);
    }
  }

  /** The list in circular order, starting behind its largest gap. */
  function Rotated(s: seq<Sat>): seq<Sat>
    requires s != []
  {
    var b := Largest(s, |s|);
    s[b + 1..] + s[..b + 1]
  }

  function RaanPlanes(sats: seq<Sat>, t: real): seq<seq<Sat>>
    requires sats != []
  {
    SortLength(sats, Raan);
    assert |SortBy(sats, Raan)| > 0;
    Split(Rotated(SortBy(sats, Raan)), NearRaan(t))
  }

  // ---- Cutting at the largest gap ----

  /** Position on the unrolled circle. */
  function Pos(w: seq<Sat>, turn: nat, i: nat): real
    requires i < |w|
  {
    w[i].raan + if i >= turn then 360.0 else 0.0
  }

  /** A list in circular order: it goes around at most once, and no gap is larger than the one from its end back
      to its start. */
  ghost predicate Unrolled(w: seq<Sat>, turn: nat) {
    && w != [] && OnCircle(w)
    && (forall i, j | 0 <= i <= j < |w| :: Pos(w, turn, i) <= Pos(w, turn, j))
    && (forall i | 0 < i < |w| :: Gap(w[i - 1], w[i]) <= Gap(w[|w| - 1], w[0]))
    && (Pos(w, turn, |w| - 1) - Pos(w, turn, 0) == 360.0 - Gap(w[|w| - 1], w[0])
        || (Pos(w, turn, |w| - 1) == Pos(w, turn, 0) && Gap(w[|w| - 1], w[0]) == 0.0))
  }

  /** Where the rotated list has its elements from. */
  function Origin(n: nat, b: nat, i: nat): (k: nat)
    requires b < n && i < n
    ensures k < n
  {
    if i < n - 1 - b then b + 1 + i else i - (n - 1 - b)
  }

  lemma RotatedAt(s: seq<Sat>, i: nat)
    requires i < |s|
    ensures Largest(s, |s|) < |s| && |Rotated(s)| == |s| && Rotated(s)[i] == s[Origin(|s|, Largest(s, |s|), i)]
  {
    LargestIsLargest(s, |s|, 0);
  }

  /** The last gap is the largest. */
  lemma RotatedGaps(s: seq<Sat>, i: nat)
    requires 0 < i < |s|
    ensures |Rotated(s)| == |s| && Gap(Rotated(s)[i - 1], Rotated(s)[i]) <= Gap(Rotated(s)[|s| - 1], Rotated(s)[0])
  {
    var n, b := |s|, Largest(s, |s|);
    RotatedAt(s, i - 1);
    RotatedAt(s, i);
    RotatedAt(s, n - 1);
    RotatedAt(s, 0);
    LargestIsLargest(s, n, Origin(n, b, i - 1));
    assert Succ(Origin(n, b, i - 1), n) == Origin(n, b, i);
    assert Origin(n, b, n - 1) == b && Succ(b, n) == Origin(n, b, 0);
  }

  lemma RotatedUnrolls(s: seq<Sat>) returns (turn: nat)
    requires s != [] && OnCircle(s) && Ascending(s, Raan)
    ensures Unrolled(Rotated(s), turn)
  {
    hide Rotated, Ascending, Pos, Gap, Largest, OnCircle;
    RotatedSpan(s);
    var n, b, w := |s|, Largest(s, |s|), Rotated(s);
    turn := if b == n - 1 then n else n - 1 - b;
    RotatedOnCircle(s);
    forall i, j | 0 <= i <= j < n ensures Pos(w, turn, i) <= Pos(w, turn, j) {
      RotatedOrder(s, i, j);
    }
    forall i | 0 < i < n ensures Gap(w[i - 1], w[i]) <= Gap(w[n - 1], w[0]) {
      RotatedGaps(s, i);
    }
  }

  lemma RotatedOnCircle(s: seq<Sat>)
    requires s != [] && OnCircle(s)
    ensures OnCircle(Rotated(s))
  {
    RotatedAt(s, 0);
    forall i | 0 <= i < |Rotated(s)| ensures 0.0 <= Rotated(s)[i].raan < 360.0 {
      RotatedAt(s, i);
    }
  }

  lemma RotatedSpan(s: seq<Sat>)
    requires s != [] && OnCircle(s) && Ascending(s, Raan)
    ensures var n, w := |s|, Rotated(s);
            var b := Largest(s, n);
            var turn := if b == n - 1 then n else n - 1 - b;
            && b < n && |w| == n
            && (Pos(w, turn, n - 1) - Pos(w, turn, 0) == 360.0 - Gap(w[n - 1], w[0])
                || (Pos(w, turn, n - 1) == Pos(w, turn, 0) && Gap(w[n - 1], w[0]) == 0.0))
  {
    var n, b := |s|, Largest(s, |s|);
    RotatedAt(s, 0);
    RotatedAt(s, n - 1);
    assert b + 1 < n ==> Raan(s[b]) <= Raan(s[b + 1]);
    assert Raan(s[0]) <= Raan(s[n - 1]);
  }

  lemma RotatedOrder(s: seq<Sat>, i: nat, j: nat)
    requires OnCircle(s) && Ascending(s, Raan) && i <= j < |s|
    ensures var n, w := |s|, Rotated(s);
            var b := Largest(s, n);
            b < n && |w| == n && var turn := if b == n - 1 then n else n - 1 - b; Pos(w, turn, i) <= Pos(w, turn, j)
  {
    RotatedAt(s, i);
    RotatedAt(s, j);
    var n, b := |s|, Largest(s, |s|);
    var x, y := Origin(n, b, i), Origin(n, b, j);
    if x <= y {
      assert Raan(s[x]) <= Raan(s[y]);
    }
  }

  lemma GapIsDistance(w: seq<Sat>, turn: nat, i: nat, j: nat)
    requires Unrolled(w, turn) && i < j < |w|
    ensures var d := Pos(w, turn, j) - Pos(w, turn, i);
            && 0.0 <= d <= 360.0
            && (d < 360.0 ==> Gap(w[i], w[j]) == d && Gap(w[j], w[i]) == if d == 0.0 then 0.0 else 360.0 - d)
            && (d == 360.0 ==> Gap(w[|w| - 1], w[0]) == 0.0)
  {
    assert Pos(w, turn, 0) <= Pos(w, turn, i) <= Pos(w, turn, j) <= Pos(w, turn, |w| - 1);
  }

  /** Between close satellites, on one side or the other of the circle, no gap reaches the threshold; and the
      side that holds the cut is only short if every gap is. */
  lemma CloseNotCut(w: seq<Sat>, turn: nat, t: real, i: nat, j: nat, k: nat)
    requires Unrolled(w, turn) && i < k <= j < |w| && CloseRaan(t)(w[i], w[j])
    ensures Gap(w[k - 1], w[k]) < t
  {
    GapIsDistance(w, turn, i, j);
    GapIsDistance(w, turn, k - 1, k);
    assert Pos(w, turn, i) <= Pos(w, turn, k - 1) <= Pos(w, turn, k) <= Pos(w, turn, j);
    assert Pos(w, turn, 0) <= Pos(w, turn, i) && Pos(w, turn, j) <= Pos(w, turn, |w| - 1);
    assert Gap(w[k - 1], w[k]) <= Gap(w[|w| - 1], w[0]);
  }

  lemma RaanRespects(w: seq<Sat>, turn: nat, t: real)
    requires Unrolled(w, turn)
    ensures Respects(w, NearRaan(t), CloseRaan(t))
  {
    forall i, j | 0 <= i < |w| && 0 <= j < |w| && CloseRaan(t)(w[i], w[j])
      ensures GroupOf(w, NearRaan(t), i) == GroupOf(w, NearRaan(t), j)
    {
      var a, b := if i <= j then i else j, if i <= j then j else i;
      forall k | a < k <= b ensures NearRaan(t)(w[k - 1], w[k]) {
        CloseNotCut(w, turn, t, a, b, k);
      }
      GroupOfGrows(w, NearRaan(t), a, b);
    }
  }

  lemma RotatedElements(sats: seq<Sat>)
    requires sats != [] && Distinct(sats) && OnCircle(sats)
    ensures var s := SortBy(sats, Raan);
            s != [] && OnCircle(s) && Distinct(Rotated(s)) && (forall x :: x in Rotated(s) <==> x in sats)
            && multiset(Rotated(s)) == multiset(sats)
  {
    SortedOnCircle(sats);
    RotatedMultiset(SortBy(sats, Raan));
    SortBySorts(sats, Raan);
    SamePermutation(sats, Rotated(SortBy(sats, Raan)));
  }

  lemma RotatedMultiset(s: seq<Sat>)
    requires s != []
    ensures multiset(Rotated(s)) == multiset(s)
  {
    var b := Largest(s, |s|);
    assert s == s[..b + 1] + s[b + 1..];
  }

  /** The clusters on the circle are exactly the connected components of the satellites whose circular distance is
      below the threshold: the place of the cut does not show. */
  lemma RaanComponents(sats: seq<Sat>, t: real, x: Sat, y: Sat)
    requires sats != [] && Distinct(sats) && OnCircle(sats) && x in sats && y in sats
    ensures Together(RaanPlanes(sats, t), x, y) <==> Linked(sats, CloseRaan(t), x, y)
  {
    RotatedElements(sats);
    SortBySorts(sats, Raan);
    var w := Rotated(SortBy(sats, Raan));
    var turn := RotatedUnrolls(SortBy(sats, Raan));
    RaanRespects(w, turn, t);
    Components(w, NearRaan(t), CloseRaan(t), x, y);
    LinkedSameElements(w, sats, CloseRaan(t), x, y);
  }

  // ---- Turning the circle ----

  function Turned(s: Sat, angle: real): Sat {
    s.(raan := if s.raan + angle >= 360.0 then s.raan + angle - 360.0 else s.raan + angle)
  }

  function TurnedAll(sats: seq<Sat>, angle: real): (r: seq<Sat>)
    ensures |r| == |sats|
  {
    seq(|sats|, i requires 0 <= i < |sats| => Turned(sats[i], angle))
  }

  lemma TurnedKeepsGaps(a: Sat, b: Sat, angle: real)
    requires 0.0 <= a.raan < 360.0 && 0.0 <= b.raan < 360.0 && 0.0 <= angle < 360.0
    ensures Gap(Turned(a, angle), Turned(b, angle)) == Gap(a, b)
    ensures Turned(a, angle) == Turned(b, angle) ==> a == b
  {
  }

  lemma TurnedKeepsLinks(sats: seq<Sat>, t: real, angle: real, x: Sat, y: Sat)
    requires OnCircle(sats) && 0.0 <= angle < 360.0 && Linked(sats, CloseRaan(t), x, y)
    ensures Linked(TurnedAll(sats, angle), CloseRaan(t), Turned(x, angle), Turned(y, angle))
  {
    var path: seq<Sat> :| Chain(sats, CloseRaan(t), path, x, y);
    var turned := TurnedAll(path, angle);
    forall i | 0 <= i < |path| ensures path[i] in sats && 0.0 <= path[i].raan < 360.0 {
      assert path[i] in path;
    }
    forall z | z in turned ensures z in TurnedAll(sats, angle) {
      var i :| 0 <= i < |path| && turned[i] == z;
      var k :| 0 <= k < |sats| && sats[k] == path[i];
      assert TurnedAll(sats, angle)[k] == z;
    }
    forall i | 0 <= i < |turned| - 1 ensures CloseRaan(t)(turned[i], turned[i + 1]) {
      assert CloseRaan(t)(path[i], path[i + 1]);
      TurnedKeepsGaps(path[i], path[i + 1], angle);
      TurnedKeepsGaps(path[i + 1], path[i], angle);
    }
    assert Chain(TurnedAll(sats, angle), CloseRaan(t), turned, Turned(x, angle), Turned(y, angle));
  }

  /** Turning every ascending node by the same angle does not change which satellites share a cluster. */
  lemma RotationInvariant(sats: seq<Sat>, t: real, angle: real, x: Sat, y: Sat)
    requires sats != [] && Distinct(sats) && OnCircle(sats) && x in sats && y in sats && 0.0 <= angle < 360.0
    ensures Together(RaanPlanes(TurnedAll(sats, angle), t), Turned(x, angle), Turned(y, angle))
            <==> Together(RaanPlanes(sats, t), x, y)
  {
    var turned, back := TurnedAll(sats, angle), if angle == 0.0 then 0.0 else 360.0 - angle;
    assert TurnedAll(turned, back) == sats;
    assert Turned(Turned(x, angle), back) == x && Turned(Turned(y, angle), back) == y;
    forall i, j | 0 <= i < j < |sats| ensures turned[i] != turned[j] {
      TurnedKeepsGaps(sats[i], sats[j], angle);
    }
    InTurned(sats, angle, x);
    InTurned(sats, angle, y);
    RaanComponents(sats, t, x, y);
    RaanComponents(turned, t, Turned(x, angle), Turned(y, angle));
    if Linked(sats, CloseRaan(t), x, y) {
      TurnedKeepsLinks(sats, t, angle, x, y);
    }
    if Linked(turned, CloseRaan(t), Turned(x, angle), Turned(y, angle)) {
      TurnedKeepsLinks(turned, t, back, Turned(x, angle), Turned(y, angle));
    }
  }

  lemma InTurned(sats: seq<Sat>, angle: real, x: Sat)
    requires x in sats
    ensures Turned(x, angle) in TurnedAll(sats, angle)
  {
    var i :| 0 <= i < |sats| && sats[i] == x;
    assert TurnedAll(sats, angle)[i] == Turned(x, angle);
  }

  // ---- Altitudes ----

  function SubPlanes(plane: seq<Sat>, m: real): seq<seq<Sat>> {
    Split(SortBy(plane, Altitude), NearAltitude(m))
  }

  lemma {:induction false} SplitSame<T>(s: seq<T>, a: (T, T) -> bool, b: (T, T) -> bool)
    requires forall i | 0 < i < |s| :: a(s[i - 1], s[i]) == b(s[i - 1], s[i])
    ensures Split(s, a) == Split(s, b)
  {
    if |s| > 1 {
      SplitSame(s[..|s| - 1], a, b);
    }
  }

  lemma NearIsClose(s: seq<Sat>, m: real)
    requires Ascending(s, Altitude)
    ensures Split(s, NearAltitude(m)) == Split(s, CloseAltitude(m))
  {
    forall i | 0 < i < |s| ensures NearAltitude(m)(s[i - 1], s[i]) == CloseAltitude(m)(s[i - 1], s[i]) {
      assert Altitude(s[i - 1]) <= Altitude(s[i]);
    }
    SplitSame(s, NearAltitude(m), CloseAltitude(m));
  }

  lemma BetweenClose(s: seq<Sat>, m: real, a: nat, b: nat)
    requires Ascending(s, Altitude) && a <= b < |s| && CloseAltitude(m)(s[a], s[b])
    ensures GroupOf(s, CloseAltitude(m), a) == GroupOf(s, CloseAltitude(m), b)
  {
    forall k | a < k <= b ensures CloseAltitude(m)(s[k - 1], s[k]) {
      assert Altitude(s[a]) <= Altitude(s[k - 1]) <= Altitude(s[k]) <= Altitude(s[b]);
    }
    GroupOfGrows(s, CloseAltitude(m), a, b);
  }

  lemma AltitudeRespects(s: seq<Sat>, m: real)
    requires Ascending(s, Altitude)
    ensures Respects(s, CloseAltitude(m), CloseAltitude(m))
  {
    forall i, j | 0 <= i < |s| && 0 <= j < |s| && CloseAltitude(m)(s[i], s[j])
      ensures GroupOf(s, CloseAltitude(m), i) == GroupOf(s, CloseAltitude(m), j)
    {
      if i <= j { BetweenClose(s, m, i, j); } else { BetweenClose(s, m, j, i); }
    }
  }

  /** Within a cluster, the sub-planes are the connected components of closeness in altitude. */
  lemma AltitudeComponents(plane: seq<Sat>, m: real, x: Sat, y: Sat)
    requires Distinct(plane) && x in plane && y in plane
    ensures Together(SubPlanes(plane, m), x, y) <==> Linked(plane, CloseAltitude(m), x, y)
  {
    var s := SortBy(plane, Altitude);
    SortBySorts(plane, Altitude);
    SamePermutation(plane, s);
    AltitudeRespects(s, m);
    NearIsClose(s, m);
    Components(s, CloseAltitude(m), CloseAltitude(m), x, y);
    LinkedSameElements(s, plane, CloseAltitude(m), x, y);
  }

  function AllSubPlanes(planes: seq<seq<Sat>>, m: real): seq<seq<Sat>> {
    if planes == [] then [] else AllSubPlanes(planes[..|planes| - 1], m) + SubPlanes(planes[|planes| - 1], m)
  }

  function SumRaan(plane: seq<Sat>): real {
    if plane == [] then 0.0 else SumRaan(plane[..|plane| - 1]) + plane[|plane| - 1].raan
  }

  function MeanRaan(plane: seq<Sat>): real {
    if plane == [] then 0.0 else SumRaan(plane) / |plane| as real
  }

  /** _group_satellites_by_orbital_plane, with the satellites' data kept. */
  function Planes(sats: seq<Sat>, t: real, m: real): seq<seq<Sat>> {
    if sats == [] then [] else SortBy(AllSubPlanes(RaanPlanes(sats, t), m), MeanRaan)
  }

  // ---- Partition ----

  lemma SubPlanesFlat(plane: seq<Sat>, m: real)
    ensures multiset(Flatten(SubPlanes(plane, m))) == multiset(plane)
    ensures forall p: seq<Sat> | p in SubPlanes(plane, m) :: p != []
  {
    SplitFlat(SortBy(plane, Altitude), NearAltitude(m));
    SortBySorts(plane, Altitude);
    NoEmptyGroups(SortBy(plane, Altitude), NearAltitude(m));
  }

  lemma {:induction false} AllSubPlanesFlat(planes: seq<seq<Sat>>, m: real)
    ensures multiset(Flatten(AllSubPlanes(planes, m))) == multiset(Flatten(planes))
    ensures forall p: seq<Sat> | p in AllSubPlanes(planes, m) :: p != []
  {
    if planes != [] {
      var n := |planes| - 1;
      AllSubPlanesFlat(planes[..n], m);
      SubPlanesFlat(planes[n], m);
      FlattenAppend(AllSubPlanes(planes[..n], m), SubPlanes(planes[n], m));
    }
  }

  lemma {:induction false} FlattenInsert(planes: seq<seq<Sat>>, p: seq<Sat>)
    ensures multiset(Flatten(Insert(planes, p, MeanRaan))) == multiset(Flatten(planes)) + multiset(p)
  {
    if planes == [] {
      assert [p][..0] == [];
    } else {
      var n := |planes| - 1;
      FlattenInsert(planes[..n], p);
      assert (planes + [p])[..n + 1] == planes;
      var front := Insert(planes[..n], p, MeanRaan);
      assert (front + [planes[n]])[..|front|] == front;
    }
  }

  lemma {:induction false} FlattenSorted(planes: seq<seq<Sat>>)
    ensures multiset(Flatten(SortBy(planes, MeanRaan))) == multiset(Flatten(planes))
  {
    if planes != [] {
      var n := |planes| - 1;
      FlattenSorted(planes[..n]);
      FlattenInsert(SortBy(planes[..n], MeanRaan), planes[n]);
    }
  }

  /** No satellite is lost or repeated, and no plane is empty. */
  lemma PlanesHoldAll(sats: seq<Sat>, t: real, m: real)
    requires Distinct(sats) && OnCircle(sats)
    ensures multiset(Flatten(Planes(sats, t, m))) == multiset(sats)
    ensures forall p: seq<Sat> | p in Planes(sats, t, m) :: p != []
  {
    if sats == [] {
      assert Flatten(Planes(sats, t, m)) == [];
    } else {
      var clusters := RaanPlanes(sats, t);
      ClustersHoldAll(sats, t);
      hide Flatten, RaanPlanes, AllSubPlanes, SortBy, Distinct, OnCircle;
      AllSubPlanesFlat(clusters, m);
      FlattenSorted(AllSubPlanes(clusters, m));
      SortedNonEmpty(AllSubPlanes(clusters, m));
    }
  }

  lemma ClustersHoldAll(sats: seq<Sat>, t: real)
    requires sats != [] && Distinct(sats) && OnCircle(sats)
    ensures multiset(Flatten(RaanPlanes(sats, t))) == multiset(sats)
  {
    RotatedElements(sats);
    SplitFlat(Rotated(SortBy(sats, Raan)), NearRaan(t));
  }

  lemma SortedNonEmpty(planes: seq<seq<Sat>>)
    requires forall p: seq<Sat> | p in planes :: p != []
    ensures forall p: seq<Sat> | p in SortBy(planes, MeanRaan) :: p != []
  {
    SortBySorts(planes, MeanRaan);
    forall p: seq<Sat> | p in SortBy(planes, MeanRaan) ensures p != [] {
      assert p in multiset(SortBy(planes, MeanRaan));
      assert p in planes;
    }
  }

  /** Each satellite is in exactly one plane, once. */
  lemma ExactlyOnePlane(sats: seq<Sat>, t: real, m: real, x: Sat) returns (g: nat)
    requires Distinct(sats) && OnCircle(sats) && x in sats
    ensures var planes := Planes(sats, t, m);
            && g < |planes| && x in planes[g] && Distinct(planes[g])
            && forall h: nat | h < |planes| && x in planes[h] :: h == g
  {
    var planes := Planes(sats, t, m);
    PlanesHoldAll(sats, t, m);
    SamePermutation(sats, Flatten(planes));
    FlattenMembers(planes, x);
    g :| 0 <= g < |planes| && x in planes[g];
    OneGroup(planes, x, g, g);
    forall h: nat | h < |planes| && x in planes[h] ensures h == g {
      OneGroup(planes, x, h, g);
    }
  }

  lemma {:induction false} AllSubPlanesTogether(planes: seq<seq<Sat>>, m: real, x: Sat, y: Sat)
    ensures Together(AllSubPlanes(planes, m), x, y)
            <==> exists r :: 0 <= r < |planes| && Together(SubPlanes(planes[r], m), x, y)
  {
    if planes != [] {
      var n := |planes| - 1;
      AllSubPlanesTogether(planes[..n], m, x, y);
      TogetherAppend(AllSubPlanes(planes[..n], m), SubPlanes(planes[n], m), x, y);
      assert forall r | 0 <= r < n :: planes[..n][r] == planes[r];
    }
  }

  lemma TogetherAppend(a: seq<seq<Sat>>, b: seq<seq<Sat>>, x: Sat, y: Sat)
    ensures Together(a + b, x, y) <==> Together(a, x, y) || Together(b, x, y)
  {
    if g :| 0 <= g < |a| && x in a[g] && y in a[g] {
      assert (a + b)[g] == a[g];
    }
    if g :| 0 <= g < |b| && x in b[g] && y in b[g] {
      assert (a + b)[|a| + g] == b[g];
    }
    if g :| 0 <= g < |a + b| && x in (a + b)[g] && y in (a + b)[g] {
      if g < |a| { assert x in a[g]; } else { assert x in b[g - |a|]; }
    }
  }

  lemma TogetherPermuted(a: seq<seq<Sat>>, b: seq<seq<Sat>>, x: Sat, y: Sat)
    requires multiset(a) == multiset(b) && Together(a, x, y)
    ensures Together(b, x, y)
  {
    var g :| 0 <= g < |a| && x in a[g] && y in a[g];
    assert a[g] in multiset(b);
    var h :| 0 <= h < |b| && b[h] == a[g];
  }

  lemma ClusterParts(sats: seq<Sat>, t: real, r: nat)
    requires sats != [] && Distinct(sats) && OnCircle(sats) && r < |RaanPlanes(sats, t)|
    ensures Distinct(RaanPlanes(sats, t)[r])
  {
    var clusters := RaanPlanes(sats, t);
    RotatedElements(sats);
    SplitFlat(Rotated(SortBy(sats, Raan)), NearRaan(t));
    NoEmptyGroups(Rotated(SortBy(sats, Raan)), NearRaan(t));
    OneGroup(clusters, clusters[r][0], r, r);
  }

  /** Two satellites share a plane exactly when they share a cluster on the circle and, within it, are linked by
      altitude. */
  lemma SamePlane(sats: seq<Sat>, t: real, m: real, x: Sat, y: Sat)
    requires sats != [] && Distinct(sats) && OnCircle(sats)
    ensures Together(Planes(sats, t, m), x, y) <==>
              exists r :: 0 <= r < |RaanPlanes(sats, t)| && x in RaanPlanes(sats, t)[r] && y in RaanPlanes(sats, t)[r]
                          && Linked(RaanPlanes(sats, t)[r], CloseAltitude(m), x, y)
  {
    var clusters := RaanPlanes(sats, t);
    var all := AllSubPlanes(clusters, m);
    SortBySorts(all, MeanRaan);
    if Together(all, x, y) {
      TogetherPermuted(all, Planes(sats, t, m), x, y);
    }
    if Together(Planes(sats, t, m), x, y) {
      TogetherPermuted(Planes(sats, t, m), all, x, y);
    }
    AllSubPlanesTogether(clusters, m, x, y);
    hide Linked, SubPlanes, RaanPlanes, Planes, AllSubPlanes;
    forall r | 0 <= r < |clusters|
      ensures Together(SubPlanes(clusters[r], m), x, y)
              <==> x in clusters[r] && y in clusters[r] && Linked(clusters[r], CloseAltitude(m), x, y)
    {
      ClusterParts(sats, t, r);
      InSubPlanes(clusters[r], m, x, y);
      if x in clusters[r] && y in clusters[r] {
        AltitudeComponents(clusters[r], m, x, y);
      }
    }
  }

  lemma InSubPlanes(plane: seq<Sat>, m: real, x: Sat, y: Sat)
    ensures Together(SubPlanes(plane, m), x, y) ==> x in plane && y in plane
  {
    SubPlanesFlat(plane, m);
    FlattenMembers(SubPlanes(plane, m), x);
    FlattenMembers(SubPlanes(plane, m), y);
    assert forall z :: z in Flatten(SubPlanes(plane, m)) <==> z in multiset(Flatten(SubPlanes(plane, m)));
    assert forall z :: z in plane <==> z in multiset(plane);
  }

  // ---- The order of the planes ----

  /** The sum with the satellites below an angle taken one turn further. */
  function SumUnrolled(plane: seq<Sat>, cut: real): real {
    if plane == [] then 0.0
    else
      var s := plane[|plane| - 1];
      SumUnrolled(plane[..|plane| - 1], cut) + s.raan + if s.raan < cut then 360.0 else 0.0
  }

  function CountBelow(plane: seq<Sat>, cut: real): (k: nat)
    ensures k <= |plane|
  {
    if plane == [] then 0 else CountBelow(plane[..|plane| - 1], cut) + if plane[|plane| - 1].raan < cut then 1 else 0
  }

  lemma {:induction false} UnrolledSum(plane: seq<Sat>, cut: real)
    ensures SumUnrolled(plane, cut) == SumRaan(plane) + 360.0 * CountBelow(plane, cut) as real
  {
    if plane != [] {
      UnrolledSum(plane[..|plane| - 1], cut);
    }
  }

  /** The plain mean, by which the planes are ordered, is a mean on the circle (up to full turns) exactly when
      the plane does not straddle the angle 0. */
  lemma MeanOnCircle(plane: seq<Sat>, cut: real)
    requires plane != []
    ensures var mean := SumUnrolled(plane, cut) / |plane| as real;
            (MeanRaan(plane) == mean || MeanRaan(plane) + 360.0 == mean)
            <==> CountBelow(plane, cut) == 0 || CountBelow(plane, cut) == |plane|
  {
    UnrolledSum(plane, cut);
    MeanShift(SumRaan(plane), |plane|, CountBelow(plane, cut));
  }

  lemma MeanShift(sum: real, n: nat, k: nat)
    requires n > 0 && k <= n
    ensures var a, b := sum / n as real, (sum + 360.0 * k as real) / n as real;
            (a == b <==> k == 0) && (a + 360.0 == b <==> k == n)
  {
    var a, b, r := sum / n as real, (sum + 360.0 * k as real) / n as real, n as real;
    assert a * r == sum && b * r == sum + 360.0 * k as real;
    var d := b - a;
    assert d * r == 360.0 * k as real;
    Cancel(d, 0.0, r);
    Cancel(d, 360.0, r);
    assert (d == 0.0 <==> k == 0) && (d == 360.0 <==> k == n);
  }

  lemma Cancel(d: real, e: real, r: real)
    requires r > 0.0
    ensures d == e <==> d * r == e * r
  {
    assert (d - e) * r == d * r - e * r;
  }

  // ---- The loops ----

  /** The running maximum over the gaps. */
  method BreakIndex(s: seq<Sat>) returns (b: nat)
    requires s != [] && OnCircle(s)
    ensures b == Largest(s, |s|)
  {
    var max := -1.0;
    b := 0;
    for i := 0 to |s|
      invariant i == 0 ==> max == -1.0
      invariant i > 0 ==> b == Largest(s, i) && max == GapAfter(s, b)
    {
      var diff := GapAfter(s, i);
      if diff > max {
        max, b := diff, i;
      }
    }
  }

  /** Growing the current plane while neighbours are near. */
  method CutRaan(w: seq<Sat>, t: real) returns (planes: seq<seq<Sat>>)
    requires w != []
    ensures planes == Split(w, NearRaan(t))
  {
    hide GroupOf;
    planes := [];
    var current := [w[0]];
    assert w[..1] == [w[0]];
    for i := 1 to |w|
      invariant planes + [current] == Split(w[..i], NearRaan(t))
    {
      SplitStep(w, NearRaan(t), planes, current, i);
      var diff := w[i].raan - w[i - 1].raan;
      if diff < 0.0 {
        diff := diff + 360.0;
      }
      if diff < t {
        current := current + [w[i]];
      } else {
        planes := planes + [current];
        current := [w[i]];
      }
    }
    assert w[..|w|] == w;
    planes := planes + [current];
  }

  method CutAltitude(plane: seq<Sat>, m: real) returns (planes: seq<seq<Sat>>)
    requires plane != []
    ensures planes == SubPlanes(plane, m)
  {
    var s := SortBy(plane, Altitude);
    SortLength(plane, Altitude);
    planes := [];
    var current := [s[0]];
    assert s[..1] == [s[0]];
    for i := 1 to |s|
      invariant planes + [current] == Split(s[..i], NearAltitude(m))
    {
      SplitStep(s, NearAltitude(m), planes, current, i);
      if s[i].altitude - s[i - 1].altitude < m {
        current := current + [s[i]];
      } else {
        planes := planes + [current];
        current := [s[i]];
      }
    }
    assert s[..|s|] == s;
    planes := planes + [current];
  }

  method CutAllAltitudes(clusters: seq<seq<Sat>>, m: real) returns (planes: seq<seq<Sat>>)
    requires forall i | 0 <= i < |clusters| :: clusters[i] != []
    ensures planes == AllSubPlanes(clusters, m)
  {
    planes := [];
    for i := 0 to |clusters|
      invariant planes == AllSubPlanes(clusters[..i], m)
    {
      assert clusters[..i + 1][..i] == clusters[..i];
      var parts := CutAltitude(clusters[i], m);
      planes := planes + parts;
    }
    assert clusters[..|clusters|] == clusters;
  }

  lemma SortedOnCircle(sats: seq<Sat>)
    requires OnCircle(sats)
    ensures OnCircle(SortBy(sats, Raan)) && |SortBy(sats, Raan)| == |sats|
  {
    var s := SortBy(sats, Raan);
    SortBySorts(sats, Raan);
    SortLength(sats, Raan);
    forall i | 0 <= i < |s| ensures 0.0 <= s[i].raan < 360.0 {
      assert s[i] in multiset(s);
      assert s[i] in sats;
    }
  }

  method GroupByPlane(sats: seq<Sat>, t: real, m: real) returns (planes: seq<seq<Sat>>)
    requires OnCircle(sats)
    ensures planes == Planes(sats, t, m)
  {
    if sats == [] {
      return [];
    }
    SortedOnCircle(sats);
    var s := SortBy(sats, Raan);
    assert s != [];
    hide SortBy, OnCircle, AllSubPlanes, Split;
    var b := BreakIndex(s);
    var clusters := CutRaan(s[b + 1..] + s[..b + 1], t);
    NoEmptyGroups(Rotated(s), NearRaan(t));
    var all := CutAllAltitudes(clusters, m);
    return SortBy(all, MeanRaan);
  }
}

/** The links between consecutive planes against their description: every satellite of a plane takes the closest
    unmatched satellite of the next one (satgonetem/utils/project_builder.py:601-604, 661-691). */
module MeshMatching {
  import opened Wrappers
  import opened StableSort
  import opened Clusters
  import opened OrbitalPlanes
  import opened MeshLinks

  /** How far apart two satellites are on the circle of phases. */
  function Apart(a: Sat, b: Sat): real {
    var d := if a.phase >= b.phase then a.phase - b.phase else b.phase - a.phase;
    if d <= 180.0 then d else 360.0 - d
  }

  // ---- The described matching ----

  /** The ranks of a matched pair. */
  type Pair = (nat, nat)

  function Taken(m: seq<Pair>): set<nat> {
    set p | p in m :: p.1
  }

  /** The closest to a satellite among the first k that are not taken; of equally close ones the first. */
  function Closest(x: Sat, t: seq<Sat>, taken: set<nat>, k: nat): Option<nat>
    requires k <= |t|
    ensures Closest(x, t, taken, k).Some? ==> Closest(x, t, taken, k).value < k
  {
    if k == 0 then None
    else
      var best := Closest(x, t, taken, k - 1);
      if k - 1 !in taken && (best.None? || Apart(x, t[k - 1]) < Apart(x, t[best.value])) then Some(k - 1) else best
  }

  /** Each of the first k satellites of a plane, in order, takes the closest unmatched one of the next. */
  function Matching(s: seq<Sat>, t: seq<Sat>, k: nat): (m: seq<Pair>)
    requires k <= |s|
    ensures |m| <= k && forall p | p in m :: p.0 < k && p.1 < |t|
  {
    if k == 0 then []
    else
      var m := Matching(s, t, k - 1);
      match Closest(s[k - 1], t, Taken(m), |t|)
      case None => m
      case Some(r) => m + [(k - 1, r)]
  }

  function LinksOf(s: seq<Sat>, t: seq<Sat>, near: (Sat, Sat) -> bool, m: seq<Pair>): seq<Isl>
    requires forall p | p in m :: p.0 < |s| && p.1 < |t|
  {
    if m == [] then []
    else
      var p := m[|m| - 1];
      LinksOf(s, t, near, m[..|m| - 1]) + if near(s[p.0], t[p.1]) then [Isl(s[p.0], t[p.1], ADJACENT)] else []
  }

  /** The links between two planes as described; those that are too long are left out here as well. */
  function ClosestRungs(a: seq<Sat>, b: seq<Sat>, near: (Sat, Sat) -> bool, minSize: nat): seq<Isl> {
    var s, t := SortBy(a, Phase), SortBy(b, Phase);
    if |s| < minSize || |t| < minSize then [] else LinksOf(s, t, near, Matching(s, t, |s|))
  }

  // ---- Against the ranks ----

  /** Each satellite is at least as near to its own rank of the next plane as to every later one. */
  predicate RankIsClosest(s: seq<Sat>, t: seq<Sat>) {
    forall i, j | 0 <= i < j < |t| && i < |s| :: Apart(s[i], t[i]) <= Apart(s[i], t[j])
  }

  function Ranks(k: nat): (m: seq<Pair>)
    ensures |m| == k && forall i | 0 <= i < k :: m[i] == (i, i)
  {
    if k == 0 then [] else Ranks(k - 1) + [(k - 1, k - 1)]
  }

  lemma RanksTaken(k: nat)
    ensures forall r: nat :: r in Taken(Ranks(k)) <==> r < k
  {
    forall r: nat | r < k ensures r in Taken(Ranks(k)) {
      assert Ranks(k)[r] in Ranks(k);
    }
  }

  lemma {:induction false} ClosestIs(x: Sat, t: seq<Sat>, taken: set<nat>, k: nat)
    requires k <= |t|
    ensures match Closest(x, t, taken, k)
            case None => forall j: nat | j < k :: j in taken
            case Some(r) => r !in taken
                            && forall j: nat | j < k && j !in taken ::
                                 Apart(x, t[r]) <= Apart(x, t[j]) && (j < r ==> Apart(x, t[r]) < Apart(x, t[j]))
  {
    hide Apart;
    if k > 0 {
      ClosestIs(x, t, taken, k - 1);
    }
  }

  /** When the first ranks are taken, the next one is the closest exactly if no later one is closer. */
  lemma NextRank(x: Sat, t: seq<Sat>, i: nat)
    ensures i < |t| ==>
              (Closest(x, t, Taken(Ranks(i)), |t|) == Some(i)
               <==> forall j | i < j < |t| :: Apart(x, t[i]) <= Apart(x, t[j]))
    ensures i >= |t| ==> Closest(x, t, Taken(Ranks(i)), |t|) == None
  {
    var taken := Taken(Ranks(i));
    hide *;
    RanksTaken(i);
    ClosestIs(x, t, taken, |t|);
    match Closest(x, t, taken, |t|)
    case None =>
      assert i < |t| ==> i !in taken;
    case Some(r) =>
      assert i <= r < |t|;
      assert i !in taken && (i < r ==> Apart(x, t[r]) < Apart(x, t[i]));
  }

  lemma {:induction false} RanksMatch(s: seq<Sat>, t: seq<Sat>, k: nat)
    requires k <= |s| && RankIsClosest(s, t)
    ensures Matching(s, t, k) == Ranks(Min(k, |t|))
  {
    hide Apart, Closest, Taken;
    if k > 0 {
      RanksMatch(s, t, k - 1);
      NextRank(s[k - 1], t, Min(k - 1, |t|));
    }
  }

  lemma SameInitAndLast(a: seq<Pair>, x: Pair, b: seq<Pair>, y: Pair)
    requires a + [x] == b + [y]
    ensures a == b && x == y
  {
    assert (a + [x])[..|a|] == a && (b + [y])[..|b|] == b;
    assert (a + [x])[|a|] == x && (b + [y])[|b|] == y;
  }

  /** The ranks up to one are those before it and its own. */
  lemma OneRankLess(s: seq<Sat>, t: seq<Sat>, k: nat)
    requires 0 < k <= |s| && k <= |t| && Matching(s, t, k) == Ranks(k)
    ensures Matching(s, t, k - 1) == Ranks(k - 1)
    ensures Closest(s[k - 1], t, Taken(Ranks(k - 1)), |t|) == Some(k - 1)
  {
    hide Closest, Taken, Min;
    var m := Matching(s, t, k - 1);
    match Closest(s[k - 1], t, Taken(m), |t|)
    case None => assert false;
    case Some(r) => SameInitAndLast(m, (k - 1, r), Ranks(k - 1), (k - 1, k - 1));
  }

  lemma NoRankLess(s: seq<Sat>, t: seq<Sat>, k: nat)
    requires 0 < |t| < k <= |s| && Matching(s, t, k) == Ranks(|t|)
    ensures Matching(s, t, k - 1) == Ranks(|t|)
  {
    hide Closest, Taken, Min;
    assert Matching(s, t, k)[|t| - 1] == (|t| - 1, |t| - 1);
  }

  lemma {:induction false} MatchedByRank(s: seq<Sat>, t: seq<Sat>, k: nat, i: nat, j: nat)
    requires k <= |s| && Matching(s, t, k) == Ranks(Min(k, |t|)) && i < j < |t| && i < k
    ensures Apart(s[i], t[i]) <= Apart(s[i], t[j])
  {
    hide Matching, Ranks, Taken, Apart, Closest;
    if k <= |t| {
      OneRankLess(s, t, k);
    } else {
      NoRankLess(s, t, k);
    }
    if i < k - 1 {
      MatchedByRank(s, t, k - 1, i, j);
    } else {
      NextRank(s[i], t, i);
    }
  }

  /** Exactly when every satellite takes its own rank. */
  lemma GreedyExact(s: seq<Sat>, t: seq<Sat>)
    ensures Matching(s, t, |s|) == Ranks(Min(|s|, |t|)) <==> RankIsClosest(s, t)
  {
    hide Apart, Matching;
    if RankIsClosest(s, t) {
      RanksMatch(s, t, |s|);
    }
    if Matching(s, t, |s|) == Ranks(Min(|s|, |t|)) {
      forall i, j | 0 <= i < j < |t| && i < |s| ensures Apart(s[i], t[i]) <= Apart(s[i], t[j]) {
        MatchedByRank(s, t, |s|, i, j);
      }
    }
  }

  // ---- The links ----

  lemma RanksInit(k: nat)
    requires k > 0
    ensures Ranks(k)[..k - 1] == Ranks(k - 1) && Ranks(k)[k - 1] == (k - 1, k - 1)
  {
  }

  lemma {:induction false} RankLinks(s: seq<Sat>, t: seq<Sat>, near: (Sat, Sat) -> bool, k: nat)
    requires k <= |s| && k <= |t|
    ensures RungsUpTo(s, t, near, k) == LinksOf(s, t, near, Ranks(k))
  {
    if k > 0 {
      RankLinks(s, t, near, k - 1);
      RanksInit(k);
      hide Ranks;
      assert LinksOf(s, t, near, Ranks(k))
             == LinksOf(s, t, near, Ranks(k - 1)) + if near(s[k - 1], t[k - 1]) then [Isl(s[k - 1], t[k - 1], ADJACENT)]
                                                    else [];
    }
  }

  /** Pairs that are not near give no link. */
  lemma {:induction false} LinkCount(s: seq<Sat>, t: seq<Sat>, near: (Sat, Sat) -> bool, m: seq<Pair>)
    requires forall p | p in m :: p.0 < |s| && p.1 < |t|
    ensures |LinksOf(s, t, near, m)| <= |m|
    ensures |LinksOf(s, t, near, m)| == |m| ==> forall i | 0 <= i < |m| :: near(s[m[i].0], t[m[i].1])
  {
    if m != [] {
      var n := |m| - 1;
      assert m[n] in m && (forall p | p in m[..n] :: p in m);
      LinkCount(s, t, near, m[..n]);
      assert forall i | 0 <= i < n :: m[..n][i] == m[i];
    }
  }

  lemma {:induction false} LinkAt(s: seq<Sat>, t: seq<Sat>, near: (Sat, Sat) -> bool, m: seq<Pair>)
    requires forall p | p in m :: p.0 < |s| && p.1 < |t|
    requires forall i | 0 <= i < |m| :: near(s[m[i].0], t[m[i].1])
    ensures |LinksOf(s, t, near, m)| == |m|
    ensures forall i | 0 <= i < |m| :: LinksOf(s, t, near, m)[i] == Isl(s[m[i].0], t[m[i].1], ADJACENT)
  {
    if m != [] {
      var n := |m| - 1;
      assert m[n] in m && (forall p | p in m[..n] :: p in m);
      assert forall i | 0 <= i < n :: m[..n][i] == m[i];
      LinkAt(s, t, near, m[..n]);
      assert LinksOf(s, t, near, m) == LinksOf(s, t, near, m[..n]) + [Isl(s[m[n].0], t[m[n].1], ADJACENT)];
      forall i | 0 <= i < |m| ensures LinksOf(s, t, near, m)[i] == Isl(s[m[i].0], t[m[i].1], ADJACENT) {
        assert i < n ==> m[..n][i] == m[i];
      }
    }
  }

  /** Different matchings of near pairs give different links. */
  lemma SameMatching(s: seq<Sat>, t: seq<Sat>, near: (Sat, Sat) -> bool, m: seq<Pair>, m': seq<Pair>)
    requires Distinct(s) && Distinct(t)
    requires (forall p | p in m :: p.0 < |s| && p.1 < |t|) && forall p | p in m' :: p.0 < |s| && p.1 < |t|
    requires forall i | 0 <= i < |m| :: near(s[m[i].0], t[m[i].1])
    requires forall i | 0 <= i < |m'| :: near(s[m'[i].0], t[m'[i].1])
    requires LinksOf(s, t, near, m) == LinksOf(s, t, near, m')
    ensures m == m'
  {
    hide LinksOf, Distinct;
    LinkAt(s, t, near, m);
    LinkAt(s, t, near, m');
    forall i | 0 <= i < |m| ensures m[i] == m'[i] {
      assert m[i] in m && m'[i] in m';
      SameLink(s, t, m[i], m'[i]);
    }
  }

  lemma SameLink(s: seq<Sat>, t: seq<Sat>, p: Pair, q: Pair)
    requires Distinct(s) && Distinct(t) && p.0 < |s| && p.1 < |t| && q.0 < |s| && q.1 < |t|
    requires Isl(s[p.0], t[p.1], ADJACENT) == Isl(s[q.0], t[q.1], ADJACENT)
    ensures p == q
  {
    assert s[p.0] == s[q.0] && t[p.1] == t[q.1];
  }

  lemma OneMoreTaken(m: seq<Pair>, p: Pair)
    ensures Taken(m + [p]) == Taken(m) + {p.1}
  {
    forall q | q in m + [p] ensures q in m || q == p {
    }
    assert p in m + [p];
    forall q | q in m ensures q in m + [p] {
    }
  }

  /** No satellite of the next plane is taken twice. */
  lemma {:induction false} MatchedOnce(s: seq<Sat>, t: seq<Sat>, k: nat)
    requires k <= |s|
    ensures |Taken(Matching(s, t, k))| == |Matching(s, t, k)| && forall r | r in Taken(Matching(s, t, k)) :: r < |t|
  {
    if k == 0 {
      assert Taken([]) == {};
    } else {
      var m := Matching(s, t, k - 1);
      MatchedOnce(s, t, k - 1);
      hide Closest, Taken;
      ClosestIs(s[k - 1], t, Taken(m), |t|);
      match Closest(s[k - 1], t, Taken(m), |t|)
      case None =>
      case Some(r) => OneMoreTaken(m, (k - 1, r));
    }
  }

  function Below(n: nat): (s: set<nat>)
    ensures |s| == n && forall j: nat :: j in s <==> j < n
  {
    if n == 0 then {} else Below(n - 1) + {n - 1}
  }

  lemma FewerThan(s: set<nat>, n: nat)
    requires forall j | j in s :: j < n
    ensures |s| <= n
  {
    assert s <= Below(n);
    assert Below(n) == s + (Below(n) - s);
  }

  lemma MatchingLength(s: seq<Sat>, t: seq<Sat>)
    ensures |Matching(s, t, |s|)| <= Min(|s|, |t|)
  {
    MatchedOnce(s, t, |s|);
    FewerThan(Taken(Matching(s, t, |s|)), |t|);
  }

  /** The satellites of equal rank are all near enough to be linked. */
  predicate RanksNear(s: seq<Sat>, t: seq<Sat>, near: (Sat, Sat) -> bool) {
    forall i | 0 <= i < Min(|s|, |t|) :: near(s[i], t[i])
  }

  /** Where all ranks are linked, the links of a matching are those of the ranks only if it matches the ranks. */
  lemma MatchesRanks(s: seq<Sat>, t: seq<Sat>, near: (Sat, Sat) -> bool)
    requires Distinct(s) && Distinct(t) && RanksNear(s, t, near)
    requires RungsUpTo(s, t, near, Min(|s|, |t|)) == LinksOf(s, t, near, Matching(s, t, |s|))
    ensures Matching(s, t, |s|) == Ranks(Min(|s|, |t|))
  {
    var k, m := Min(|s|, |t|), Matching(s, t, |s|);
    hide Matching, LinksOf, Ranks;
    forall p | p in Ranks(k) ensures p.0 < |s| && p.1 < |t| {
    }
    RankLinks(s, t, near, k);
    LinkAt(s, t, near, Ranks(k));
    MatchingLength(s, t);
    LinkCount(s, t, near, m);
    SameMatching(s, t, near, Ranks(k), m);
  }

  /** The links between two planes are those of the closest unmatched satellites if every satellite is at least as
      near to its own rank of the next plane as to every later one, whichever links are too long; and when those of
      equal rank are not, exactly then. */
  lemma RungsExact(a: seq<Sat>, b: seq<Sat>, near: (Sat, Sat) -> bool, minSize: nat)
    requires Distinct(a) && Distinct(b) && minSize <= |a| && minSize <= |b|
    ensures var s, t := SortBy(a, Phase), SortBy(b, Phase);
            && (RankIsClosest(s, t) ==> Rungs(a, b, near, minSize) == ClosestRungs(a, b, near, minSize))
            && (RanksNear(s, t, near) ==>
                  (Rungs(a, b, near, minSize) == ClosestRungs(a, b, near, minSize) <==> RankIsClosest(s, t)))
  {
    hide Matching, RankIsClosest, Ranks, RanksNear;
    var s, t := SortBy(a, Phase), SortBy(b, Phase);
    SortedPlane(a);
    SortedPlane(b);
    GreedyExact(s, t);
    RankLinks(s, t, near, Min(|s|, |t|));
    if RanksNear(s, t, near) && Rungs(a, b, near, minSize) == ClosestRungs(a, b, near, minSize) {
      MatchesRanks(s, t, near);
    }
  }

  // ---- Evenly spaced planes ----

  /** A plane whose satellites are one step apart all around the circle, from some phase on. */
  predicate Even(s: seq<Sat>, step: real, first: real) {
    s != [] && |s| as real * step == 360.0 && forall i | 0 <= i < |s| :: s[i].phase == i as real * step + first
  }

  lemma NotNegative(x: real, y: real)
    requires x >= 0.0 && y >= 0.0
    ensures x * y >= 0.0
  {
  }

  lemma NotPositive(x: real, y: real)
    requires x >= 0.0 && y <= 0.0
    ensures x * y <= 0.0
  {
  }

  lemma Positive(n: real, step: real)
    requires n > 0.0 && n * step == 360.0
    ensures step > 0.0
  {
    if step <= 0.0 {
      NotPositive(n, step);
    }
  }

  /** Some steps, and those that are left of the circle. */
  lemma Steps(n: real, step: real, d: real)
    requires n * step == 360.0 && 1.0 <= d <= n - 1.0
    ensures 0.0 < step <= d * step <= 360.0 - step
    ensures d == n - 1.0 ==> d * step == 360.0 - step
  {
    Positive(n, step);
    NotNegative(d - 1.0, step);
    NotNegative(n - d - 1.0, step);
    assert d * step == (d - 1.0) * step + step;
    assert n * step == d * step + (n - d - 1.0) * step + step;
  }

  lemma Distance(i: real, d: real, step: real)
    ensures (i + d) * step - i * step == d * step
  {
  }

  lemma PhaseGap(s: seq<Sat>, t: seq<Sat>, step: real, shift: real, i: nat, j: nat)
    requires |s| == |t| && Even(s, step, 0.0) && Even(t, step, shift) && i < j < |t|
    ensures t[j].phase - s[i].phase == (j - i) as real * step + shift
  {
    Distance(i as real, (j - i) as real, step);
    assert i as real + (j - i) as real == j as real;
  }

  /** How far a satellite is from a later rank of the next plane. */
  lemma RankApart(s: seq<Sat>, t: seq<Sat>, step: real, shift: real, i: nat, j: nat)
    requires |s| == |t| && Even(s, step, 0.0) && Even(t, step, shift) && 0.0 <= shift < step && i < j < |t|
    ensures var x := (j - i) as real * step;
            && 0.0 < step <= x <= 360.0 - step && (j - i == |t| - 1 ==> x == 360.0 - step)
            && Apart(s[i], t[j]) == if x + shift <= 180.0 then x + shift else 360.0 - (x + shift)
  {
    PhaseGap(s, t, step, shift, i, j);
    assert |t| as real * step == 360.0;
    hide Even;
    Steps(|t| as real, step, (j - i) as real);
  }

  lemma SameRankApart(s: seq<Sat>, t: seq<Sat>, step: real, shift: real, i: nat)
    requires |s| == |t| && Even(s, step, 0.0) && Even(t, step, shift) && 0.0 <= shift <= 180.0 && i < |t|
    ensures Apart(s[i], t[i]) == shift
  {
  }

  lemma ShiftedRanks(s: seq<Sat>, t: seq<Sat>, step: real, shift: real)
    requires |s| == |t| >= 2 && Even(s, step, 0.0) && Even(t, step, shift) && 0.0 <= shift < step
    ensures RankIsClosest(s, t) <==> 2.0 * shift <= step
  {
    hide Even, Apart;
    RankApart(s, t, step, shift, 0, |s| - 1);
    forall i | 0 <= i < |s| ensures Apart(s[i], t[i]) == shift {
      SameRankApart(s, t, step, shift, i);
    }
    forall i, j | 0 <= i < j < |s| && 2.0 * shift <= step ensures Apart(s[i], t[i]) <= Apart(s[i], t[j]) {
      RankApart(s, t, step, shift, i, j);
    }
  }

  /** Two such planes of two or more satellites, those of equal rank near, the second shifted by less than a step: the
      links by rank are those of the closest unmatched satellites exactly when the shift is at most half a step. */
  lemma ShiftedExact(a: seq<Sat>, b: seq<Sat>, near: (Sat, Sat) -> bool, minSize: nat, step: real, shift: real)
    requires Distinct(a) && Distinct(b) && minSize <= |a| == |b| && |a| >= 2 && 0.0 <= shift < step
    requires Even(SortBy(a, Phase), step, 0.0) && Even(SortBy(b, Phase), step, shift)
    requires RanksNear(SortBy(a, Phase), SortBy(b, Phase), near)
    ensures Rungs(a, b, near, minSize) == ClosestRungs(a, b, near, minSize) <==> 2.0 * shift <= step
  {
    hide *;
    SortedPlane(a);
    SortedPlane(b);
    RungsExact(a, b, near, minSize);
    ShiftedRanks(SortBy(a, Phase), SortBy(b, Phase), step, shift);
  }
}

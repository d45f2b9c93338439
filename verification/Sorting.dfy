/** sorted(list, key) and list.sort(key): ascending, equal keys in their old order. */
module StableSort {

  ghost predicate Ascending<T>(s: seq<T>, key: T -> real) {
    forall i, j | 0 <= i < j < |s| :: key(s[i]) <= key(s[j])
  }

  /** An element goes behind those whose key is not larger. */
  function Insert<T>(s: seq<T>, x: T, key: T -> real): seq<T> {
    if s == [] then [x]
    else
      var n := |s| - 1;
      if key(s[n]) <= key(x) then s + [x] else Insert(s[..n], x, key) + [s[n]]
  }

  function SortBy<T>(s: seq<T>, key: T -> real): seq<T> {
    if s == [] then [] else Insert(SortBy(s[..|s| - 1], key), s[|s| - 1], key)
  }

  lemma {:induction false} InsertElements<T>(s: seq<T>, x: T, key: T -> real)
    ensures multiset(Insert(s, x, key)) == multiset(s) + multiset{x}
    ensures forall y | y in Insert(s, x, key) :: y in s || y == x
  {
    if s != [] {
      assert s == s[..|s| - 1] + [s[|s| - 1]];
      InsertElements(s[..|s| - 1], x, key);
    }
  }

  lemma {:induction false} InsertSorts<T>(s: seq<T>, x: T, key: T -> real)
    requires Ascending(s, key)
    ensures Ascending(Insert(s, x, key), key)
  {
    if s != [] && key(s[|s| - 1]) > key(x) {
      var n := |s| - 1;
      InsertSorts(s[..n], x, key);
      InsertElements(s[..n], x, key);
      var front := Insert(s[..n], x, key);
      forall i | 0 <= i < |front| ensures key(front[i]) <= key(s[n]) {
        assert front[i] in front;
      }
    }
  }

  lemma {:induction false} SortBySorts<T>(s: seq<T>, key: T -> real)
    ensures Ascending(SortBy(s, key), key) && multiset(SortBy(s, key)) == multiset(s)
  {
    if s != [] {
      var n := |s| - 1;
      assert s == s[..n] + [s[n]];
      SortBySorts(s[..n], key);
      InsertSorts(SortBy(s[..n], key), s[n], key);
      InsertElements(SortBy(s[..n], key), s[n], key);
    }
  }

  /** A list that is in order stays as it is. */
  lemma {:induction false} SortedAlready<T>(s: seq<T>, key: T -> real)
    requires Ascending(s, key)
    ensures SortBy(s, key) == s
  {
    if s != [] {
      SortedAlready(s[..|s| - 1], key);
    }
  }

  lemma {:induction false} SortLength<T>(s: seq<T>, key: T -> real)
    ensures |SortBy(s, key)| == |s|
  {
    SortBySorts(s, key);
    assert |multiset(s)| == |s| && |multiset(SortBy(s, key))| == |SortBy(s, key)|;
  }

  ghost predicate Distinct<T>(s: seq<T>) {
    forall i, j | 0 <= i < j < |s| :: s[i] != s[j]
  }

  lemma DistinctOnce<T>(s: seq<T>, x: T)
    requires Distinct(s)
    ensures multiset(s)[x] == if x in s then 1 else 0
  {
    if x in s {
      var i :| 0 <= i < |s| && s[i] == x;
      assert s == s[..i] + [x] + s[i + 1..];
      assert x !in s[..i] && x !in s[i + 1..];
    }
  }

  lemma CountedTwice<T>(t: seq<T>, i: nat, j: nat)
    requires i < j < |t| && t[i] == t[j]
    ensures multiset(t)[t[i]] >= 2
  {
    assert t == t[..j] + [t[j]] + t[j + 1..];
    assert t[i] in t[..j];
  }

  /** A rearrangement of distinct elements has the same elements, each once. */
  lemma SamePermutation<T>(s: seq<T>, t: seq<T>)
    requires multiset(s) == multiset(t) && Distinct(s)
    ensures Distinct(t) && |t| == |s| && forall x :: x in t <==> x in s
  {
    forall x ensures x in t <==> x in s {
      assert x in t <==> x in multiset(t);
    }
    forall i, j | 0 <= i < j < |t| ensures t[i] != t[j] {
      DistinctOnce(s, t[i]);
      if t[i] == t[j] {
        CountedTwice(t, i, j);
      }
    }
    assert |multiset(s)| == |s| && |multiset(t)| == |t|;
  }

  // ---- Ranks ----

  /** In the list, y stands somewhere before x. */
  ghost predicate StandsBefore<T>(s: seq<T>, y: T, x: T) {
    exists i, j :: 0 <= i < j < |s| && s[i] == y && s[j] == x
  }

  /** The key of y is smaller, or it is the same and y stands before x. */
  ghost predicate Precedes<T>(s: seq<T>, key: T -> real, y: T, x: T) {
    key(y) < key(x) || (key(y) == key(x) && StandsBefore(s, y, x))
  }

  /** How many elements precede this one. */
  ghost function RankOf<T>(s: seq<T>, key: T -> real, x: T): nat {
    |set y | y in s && Precedes(s, key, y, x)|
  }

  ghost predicate Ordered<T>(s: seq<T>, key: T -> real, t: seq<T>) {
    forall i, j | 0 <= i < j < |t| :: Precedes(s, key, t[i], t[j])
  }

  lemma {:induction false} InsertOrdered<T>(s: seq<T>, key: T -> real, t: seq<T>, x: T)
    requires Ordered(s, key, t) && Ascending(t, key) && forall y | y in t :: StandsBefore(s, y, x)
    ensures Ordered(s, key, Insert(t, x, key))
  {
    if t != [] {
      var n := |t| - 1;
      if key(t[n]) > key(x) {
        InsertOrdered(s, key, t[..n], x);
        InsertElements(t[..n], x, key);
        var front := Insert(t[..n], x, key);
        forall i | 0 <= i < |front| ensures Precedes(s, key, front[i], t[n]) {
          assert front[i] in front;
          if front[i] in t[..n] {
            var j :| 0 <= j < n && t[..n][j] == front[i];
            assert Precedes(s, key, t[j], t[n]);
          }
        }
      } else {
        forall i | 0 <= i <= n ensures Precedes(s, key, t[i], x) {
          assert t[i] in t && key(t[i]) <= key(t[n]);
        }
      }
    }
  }

  lemma StandsLonger<T>(s: seq<T>, y: T, x: T)
    requires s != [] && StandsBefore(s[..|s| - 1], y, x)
    ensures StandsBefore(s, y, x)
  {
    var front := s[..|s| - 1];
    var i, j :| 0 <= i < j < |front| && front[i] == y && front[j] == x;
    assert s[i] == y && s[j] == x;
  }

  lemma {:induction false} SortByOrders<T>(s: seq<T>, key: T -> real)
    ensures Ordered(s, key, SortBy(s, key))
  {
    if s != [] {
      var n := |s| - 1;
      var t := SortBy(s[..n], key);
      SortByOrders(s[..n], key);
      SortBySorts(s[..n], key);
      forall y | y in t ensures StandsBefore(s, y, s[n]) {
        assert y in multiset(t);
        assert y in s[..n];
        var i :| 0 <= i < n && s[..n][i] == y;
        assert s[i] == y;
      }
      forall i, j | 0 <= i < j < |t| ensures Precedes(s, key, t[i], t[j]) {
        assert Precedes(s[..n], key, t[i], t[j]);
        if key(t[i]) == key(t[j]) {
          StandsLonger(s, t[i], t[j]);
        }
      }
      InsertOrdered(s, key, t, s[n]);
    }
  }

  lemma NotBoth<T>(s: seq<T>, key: T -> real, y: T, x: T)
    requires Distinct(s) && Precedes(s, key, y, x)
    ensures !Precedes(s, key, x, y)
  {
    if key(y) == key(x) {
      var i, j :| 0 <= i < j < |s| && s[i] == y && s[j] == x;
      forall k, l | 0 <= k < l < |s| ensures !(s[k] == x && s[l] == y) {
      }
    }
  }

  /** In an ordered rearrangement the elements that precede one are those in front of it. */
  lemma FrontPrecedes<T>(s: seq<T>, key: T -> real, t: seq<T>, p: nat, y: T)
    requires Distinct(s) && Distinct(t) && Ordered(s, key, t) && p < |t| && y in t
    ensures y in t[..p] <==> Precedes(s, key, y, t[p])
  {
    hide Precedes;
    var q :| 0 <= q < |t| && t[q] == y;
    if q < p {
      assert t[..p][q] == y;
    } else {
      assert y !in t[..p];
      if Precedes(s, key, y, t[p]) {
        NotBoth(s, key, y, t[p]);
      }
    }
  }

  lemma PlaceIsRank<T>(s: seq<T>, key: T -> real, t: seq<T>, p: nat)
    requires Distinct(s) && Distinct(t) && Ordered(s, key, t) && p < |t| && forall y :: y in t <==> y in s
    ensures RankOf(s, key, t[p]) == p
  {
    hide Precedes, Ordered, Distinct;
    forall y | y in t ensures y in t[..p] <==> Precedes(s, key, y, t[p]) {
      FrontPrecedes(s, key, t, p, y);
    }
    assert (set y | y in s && Precedes(s, key, y, t[p])) == set y | y in t[..p];
    FrontDistinct(t, p);
    Counted(t[..p]);
  }

  lemma FrontDistinct<T>(t: seq<T>, p: nat)
    requires Distinct(t) && p <= |t|
    ensures Distinct(t[..p])
  {
  }

  /** Sorting puts every element in the place of its rank. */
  lemma RankExact<T>(s: seq<T>, key: T -> real, x: T, i: nat)
    requires Distinct(s)
    ensures |SortBy(s, key)| == |s|
    ensures i < |s| && SortBy(s, key)[i] == x <==> x in s && RankOf(s, key, x) == i
  {
    var t := SortBy(s, key);
    SortBySorts(s, key);
    SamePermutation(s, t);
    SortByOrders(s, key);
    hide SortBy, Precedes, Ordered, RankOf;
    if x in s {
      var p :| 0 <= p < |t| && t[p] == x;
      PlaceIsRank(s, key, t, p);
    }
  }

  lemma {:induction false} Counted<T>(s: seq<T>)
    requires Distinct(s)
    ensures |set y | y in s| == |s|
  {
    if s != [] {
      var n := |s| - 1;
      Counted(s[..n]);
      assert (set y | y in s) == (set y | y in s[..n]) + {s[n]};
    }
  }
}

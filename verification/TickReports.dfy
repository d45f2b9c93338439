/** What a sync makes of a link, said of the reports alone (satgonetem/services/mixins/topology_sync.py:162-242,
    344-420). */
module TickReports {
  import opened Wrappers
  import opened Nodes
  import opened Links
  import opened LinkSync

  /** The report is of the link between the two nodes of k. */
  predicate Of(r: Report, k: LinkKey) {
    && r.source.Some? && r.source.value.Known? && r.target.Some? && r.target.value.Known?
    && k == {r.source.value.node, r.target.value.node}
  }

  predicate FirstOf(reports: seq<Report>, k: LinkKey, i: nat) {
    i < |reports| && Of(reports[i], k) && forall j | 0 <= j < i :: !Of(reports[j], k)
  }

  predicate LastOf(reports: seq<Report>, k: LinkKey, i: nat) {
    i < |reports| && Of(reports[i], k) && forall j | i < j < |reports| :: !Of(reports[j], k)
  }

  predicate Reported(reports: seq<Report>, k: LinkKey) {
    exists i :: 0 <= i < |reports| && Of(reports[i], k)
  }

  /** What a report says of a link: the first one of an unknown link that it is active if it says it is not disabled,
      any other one what it gives as is_active, and without that that it is active unless it says disabled. */
  predicate Says(known: bool, reports: seq<Report>, k: LinkKey, i: nat)
    requires i < |reports|
  {
    if !known && FirstOf(reports, k, i) then reports[i].disabled == Some(false)
    else if reports[i].isActive.Some? then reports[i].isActive == Some(true)
    else reports[i].disabled != Some(true)
  }

  /** The last report has the last word. */
  ghost predicate Active(known: bool, reports: seq<Report>, k: LinkKey) {
    exists i: nat :: LastOf(reports, k, i) && Says(known, reports, k, i)
  }

  ghost predicate AllSay(known: bool, reports: seq<Report>, k: LinkKey, active: bool) {
    forall i: nat | i < |reports| && Of(reports[i], k) :: Says(known, reports, k, i) == active
  }

  /** A link is there after a tick if it is reported, between known nodes if it is new, and not switched off: it is
      active, or it was not active before and no report says it is. */
  ghost predicate Kept(cfg: Config, was: Option<bool>, reports: seq<Report>, k: LinkKey) {
    && Reported(reports, k) && (was.None? ==> k <= cfg.nodes)
    && (Active(was.Some?, reports, k) || (was != Some(true) && AllSay(was.Some?, reports, k, false)))
  }

  /** The link is made from its first report and a measure. */
  predicate MadeFrom(cfg: Config, r: Report, m: Measure, l: LinkState) {
    && r.source == Some(Known(l.source)) && r.target == Some(Known(l.target)) && l.kind == r.kind
    && l.useBudget == cfg.useBudget && l.defaultCapacity == cfg.capacityOf(r.kind)
    && l.distance == m.distance && l.delay == DelayOf(m.distance)
    && if cfg.useBudget && r.kind == GroundStationLink then l.capacity1 == m.budget1 && l.capacity2 == m.budget2
       else l.capacity1 == l.capacity2 == cfg.capacityOf(r.kind)
  }

  ghost predicate MadeFirst(cfg: Config, reports: seq<Report>, k: LinkKey, m: Measure, l: LinkState) {
    exists i: nat :: FirstOf(reports, k, i) && MadeFrom(cfg, reports[i], m, l)
  }

  /** The link has moved: its budget is looked at if its distance changed. */
  predicate MovedFrom(l: LinkState, m: Measure, l': LinkState) {
    && l'.source == l.source && l'.target == l.target && l'.kind == l.kind
    && l'.useBudget == l.useBudget && l'.defaultCapacity == l.defaultCapacity
    && l'.distance == m.distance && l'.delay == DelayOf(m.distance)
    && if l.useBudget && l.kind == GroundStationLink && m.distance != l.distance
       then l'.capacity1 == m.budget1 && l'.capacity2 == m.budget2
       else l'.capacity1 == l.capacity1 && l'.capacity2 == l.capacity2
  }

  // ---- One report more ----

  lemma KeyIs(r: Report, k: LinkKey)
    ensures KeyOfReport(r) == Some(k) <==> Of(r, k)
  {
  }

  lemma FirstBefore(reports: seq<Report>, k: LinkKey, n: nat, i: nat)
    requires i < n <= |reports|
    ensures FirstOf(reports[..n], k, i) <==> FirstOf(reports, k, i)
  {
    assert forall j | 0 <= j < n :: reports[..n][j] == reports[j];
    hide Of;
  }

  lemma SaidBefore(known: bool, reports: seq<Report>, k: LinkKey, n: nat)
    requires n <= |reports|
    ensures forall i: nat | i < n :: FirstOf(reports[..n], k, i) <==> FirstOf(reports, k, i)
    ensures forall i: nat | i < n :: Says(known, reports[..n], k, i) <==> Says(known, reports, k, i)
  {
    hide FirstOf;
    forall i: nat | i < n ensures FirstOf(reports[..n], k, i) <==> FirstOf(reports, k, i) {
      FirstBefore(reports, k, n, i);
    }
  }

  lemma OneMore(known: bool, reports: seq<Report>, k: LinkKey)
    requires reports != []
    ensures var n := |reports| - 1;
            && (Reported(reports, k) <==> Reported(reports[..n], k) || Of(reports[n], k))
            && (FirstOf(reports, k, n) <==> Of(reports[n], k) && !Reported(reports[..n], k))
            && (Active(known, reports, k)
                <==> if Of(reports[n], k) then Says(known, reports, k, n) else Active(known, reports[..n], k))
            && forall a :: AllSay(known, reports, k, a)
                           <==> AllSay(known, reports[..n], k, a)
                                && (Of(reports[n], k) ==> Says(known, reports, k, n) == a)
  {
    ReportedMore(reports, k);
    LastWord(known, reports, k);
    forall a
      ensures AllSay(known, reports, k, a)
              <==> AllSay(known, reports[..|reports| - 1], k, a)
                   && (Of(reports[|reports| - 1], k) ==> Says(known, reports, k, |reports| - 1) == a)
    {
      AllSayMore(known, reports, k, a);
    }
  }

  lemma ReportedMore(reports: seq<Report>, k: LinkKey)
    requires reports != []
    ensures var n := |reports| - 1;
            && (Reported(reports, k) <==> Reported(reports[..n], k) || Of(reports[n], k))
            && (FirstOf(reports, k, n) <==> Of(reports[n], k) && !Reported(reports[..n], k))
  {
    hide Of;
    assert forall j | 0 <= j < |reports| - 1 :: reports[..|reports| - 1][j] == reports[j];
  }

  lemma LastWord(known: bool, reports: seq<Report>, k: LinkKey)
    requires reports != []
    ensures var n := |reports| - 1;
            Active(known, reports, k)
            <==> if Of(reports[n], k) then Says(known, reports, k, n) else Active(known, reports[..n], k)
  {
    var n := |reports| - 1;
    SaidBefore(known, reports, k, n);
    hide Of, Says, FirstOf;
    if Of(reports[n], k) {
      assert LastOf(reports, k, n);
    } else {
      forall i: nat ensures LastOf(reports[..n], k, i) <==> LastOf(reports, k, i) {
        assert forall j | 0 <= j < n :: reports[..n][j] == reports[j];
      }
    }
  }

  lemma AllSayMore(known: bool, reports: seq<Report>, k: LinkKey, a: bool)
    requires reports != []
    ensures var n := |reports| - 1;
            AllSay(known, reports, k, a)
            <==> AllSay(known, reports[..n], k, a) && (Of(reports[n], k) ==> Says(known, reports, k, n) == a)
  {
    var n := |reports| - 1;
    SaidBefore(known, reports, k, n);
    hide Of, Says, FirstOf;
    assert forall j: nat | j < n :: reports[..n][j] == reports[j];
    if AllSay(known, reports, k, a) {
      forall i: nat | i < n && Of(reports[..n][i], k) ensures Says(known, reports[..n], k, i) == a {
        assert Of(reports[i], k);
      }
    }
    if AllSay(known, reports[..n], k, a) {
      forall i: nat | i < n && Of(reports[i], k) ensures Says(known, reports, k, i) == a {
        assert Of(reports[..n][i], k);
      }
    }
  }

  lemma OneMoreReport(cfg: Config, initialSync: bool, old': Option<LinkState>, reports: seq<Report>, k: LinkKey,
                      m: Measure)
    requires reports != []
    ensures var n := |reports| - 1;
            ReportsFor(reports, k) != [] <==> ReportsFor(reports[..n], k) != [] || KeyOfReport(reports[n]) == Some(k)
    ensures var n := |reports| - 1;
            SyncedBy(cfg, initialSync, old', ReportsFor(reports, k), m)
            == if KeyOfReport(reports[n]) == Some(k) then
                 match SyncedBy(cfg, initialSync, old', ReportsFor(reports[..n], k), m)
                 case None => Created(cfg, initialSync, reports[n], m)
                 case Some(l) => Some(Flipped(l, reports[n]))
               else SyncedBy(cfg, initialSync, old', ReportsFor(reports[..n], k), m)
  {
    var n := |reports| - 1;
    var reps, front := ReportsFor(reports, k), ReportsFor(reports[..n], k);
    if KeyOfReport(reports[n]) == Some(k) {
      assert reps[..|reps| - 1] == front;
    } else {
      assert reps == front;
    }
  }

  lemma {:induction false} AnyReport(reports: seq<Report>, k: LinkKey)
    ensures ReportsFor(reports, k) != [] <==> Reported(reports, k)
  {
    if reports != [] {
      var n := |reports| - 1;
      AnyReport(reports[..n], k);
      OneMore(true, reports, k);
      KeyIs(reports[n], k);
    }
  }

  // ---- What the reports of one link make of it ----

  /** A known link: reports that all say what it is leave it alone, otherwise the last one decides. */
  ghost predicate KnownSynced(l: LinkState, reports: seq<Report>, k: LinkKey, l': LinkState) {
    && (if AllSay(true, reports, k, l.isActive) then l' == l else FlippedFrom(l, l'))
    && (Reported(reports, k) ==> (l'.isActive <==> Active(true, reports, k)))
  }

  lemma {:induction false} KnownLink(cfg: Config, initialSync: bool, l: LinkState, reports: seq<Report>, k: LinkKey,
                                     m: Measure)
    ensures var l' := SyncedBy(cfg, initialSync, Some(l), ReportsFor(reports, k), m);
            l'.Some? && KnownSynced(l, reports, k, l'.value)
  {
    if reports != [] {
      var n := |reports| - 1;
      hide Active, AllSay, Reported, SyncedBy, ReportsFor, Of, FirstOf, Says, Flipped, KnownSynced;
      KnownLink(cfg, initialSync, l, reports[..n], k, m);
      OneMoreReport(cfg, initialSync, Some(l), reports, k, m);
      KeyIs(reports[n], k);
      NextOfKnown(l, reports, k, SyncedBy(cfg, initialSync, Some(l), ReportsFor(reports[..n], k), m).value);
    } else {
      assert AllSay(true, reports, k, l.isActive);
    }
  }

  lemma NextOfKnown(l: LinkState, reports: seq<Report>, k: LinkKey, l': LinkState)
    requires reports != [] && KnownSynced(l, reports[..|reports| - 1], k, l')
    ensures var r := reports[|reports| - 1];
            KnownSynced(l, reports, k, if Of(r, k) then Flipped(l', r) else l')
  {
    var n := |reports| - 1;
    OneMore(true, reports, k);
    hide Active, AllSay, Reported, Of, FirstOf;
  }

  /** The marks of a link made by these reports. */
  ghost predicate NewSynced(cfg: Config, initialSync: bool, reports: seq<Report>, k: LinkKey, m: Measure,
                            l': LinkState)
  {
    && MadeFirst(cfg, reports, k, m, l') && l'.peers == [] && !l'.toUpdate
    && (l'.isActive <==> Active(false, reports, k))
    && (if AllSay(false, reports, k, l'.isActive) then l'.toAdd == (initialSync && l'.isActive) && !l'.toRemove
        else l'.toAdd == l'.isActive && l'.toRemove == !l'.isActive)
  }

  lemma {:induction false} NewLinkOf(cfg: Config, initialSync: bool, reports: seq<Report>, k: LinkKey, m: Measure)
    ensures var l' := SyncedBy(cfg, initialSync, None, ReportsFor(reports, k), m);
            && (l'.Some? <==> Reported(reports, k) && k <= cfg.nodes)
            && (l'.Some? ==> NewSynced(cfg, initialSync, reports, k, m, l'.value))
  {
    if reports != [] {
      var n := |reports| - 1;
      NewLinkOf(cfg, initialSync, reports[..n], k, m);
      OneMoreReport(cfg, initialSync, None, reports, k, m);
      OneMore(false, reports, k);
      KeyIs(reports[n], k);
      hide Active, AllSay, Reported, SyncedBy, ReportsFor, Of, FirstOf, MadeFirst, Created, Flipped, NewSynced, Says;
      var before := SyncedBy(cfg, initialSync, None, ReportsFor(reports[..n], k), m);
      if before.Some? {
        NextReport(cfg, initialSync, reports, k, m, before.value);
      } else if Of(reports[n], k) {
        FreshLink(cfg, initialSync, reports, k, m);
      }
    }
  }

  lemma NextReport(cfg: Config, initialSync: bool, reports: seq<Report>, k: LinkKey, m: Measure, l: LinkState)
    requires reports != [] && NewSynced(cfg, initialSync, reports[..|reports| - 1], k, m, l)
    requires Reported(reports[..|reports| - 1], k)
    ensures var r := reports[|reports| - 1];
            NewSynced(cfg, initialSync, reports, k, m, if Of(r, k) then Flipped(l, r) else l)
  {
    var n := |reports| - 1;
    OneMore(false, reports, k);
    FirstStays(cfg, reports, k, m, l, if Of(reports[n], k) then Flipped(l, reports[n]) else l);
    SayOneThing(false, reports[..n], k);
    hide Active, AllSay, Reported, Of, FirstOf, MadeFirst;
  }

  /** The first report stays the first one. */
  lemma FirstStays(cfg: Config, reports: seq<Report>, k: LinkKey, m: Measure, l: LinkState, l': LinkState)
    requires reports != [] && MadeFirst(cfg, reports[..|reports| - 1], k, m, l)
    requires l' == l.(isActive := l'.isActive, toAdd := l'.toAdd, toRemove := l'.toRemove)
    ensures MadeFirst(cfg, reports, k, m, l')
  {
    var n := |reports| - 1;
    SaidBefore(false, reports, k, n);
    var i: nat :| FirstOf(reports[..n], k, i) && MadeFrom(cfg, reports[..n][i], m, l);
    assert FirstOf(reports, k, i) && MadeFrom(cfg, reports[i], m, l');
  }

  lemma FreshLink(cfg: Config, initialSync: bool, reports: seq<Report>, k: LinkKey, m: Measure)
    requires reports != [] && Of(reports[|reports| - 1], k)
    requires Reported(reports[..|reports| - 1], k) ==> !(k <= cfg.nodes)
    ensures var l := Created(cfg, initialSync, reports[|reports| - 1], m);
            && (l.Some? <==> k <= cfg.nodes)
            && (l.Some? ==> NewSynced(cfg, initialSync, reports, k, m, l.value))
  {
    var n := |reports| - 1;
    OneMore(false, reports, k);
    if k <= cfg.nodes {
      assert FirstOf(reports, k, n);
      assert reports[..n] == reports[..n];
      forall a ensures AllSay(false, reports[..n], k, a) {
      }
      var l := Created(cfg, initialSync, reports[n], m).value;
      assert MadeFrom(cfg, reports[n], m, l);
      hide Active, AllSay;
    }
  }

  // ---- One sync ----

  /** After a sync of a running topology: which links are there unmarked, which of them are active, and what they
      are made of. */
  lemma SyncOutcome(cfg: Config, old': Option<LinkState>, reports: seq<Report>, k: LinkKey, m: Measure)
    requires old'.Some? ==> AtRest(old'.value)
    ensures var new' := Synced(cfg, true, old', ReportsFor(reports, k), m);
            var was := if old'.Some? then Some(old'.value.isActive) else None;
            && (new'.Some? && !new'.value.toRemove <==> Kept(cfg, was, reports, k))
            && (Kept(cfg, was, reports, k) ==>
                  && (new'.value.isActive <==> Active(old'.Some?, reports, k))
                  && if old'.Some? then MovedFrom(old'.value, m, new'.value)
                     else MadeFirst(cfg, reports, k, m, new'.value))
  {
    AnyReport(reports, k);
    SayOneThing(old'.Some?, reports, k);
    if old'.Some? {
      KnownLink(cfg, true, old'.value, reports, k, m);
    } else {
      NewLinkOf(cfg, true, reports, k, m);
    }
    hide Active, AllSay, Reported, SyncedBy, ReportsFor, Of, FirstOf, MadeFirst;
  }

  /** If all reports say the same, so does the last one. */
  lemma SayOneThing(known: bool, reports: seq<Report>, k: LinkKey)
    ensures forall a | Reported(reports, k) && AllSay(known, reports, k, a) :: Active(known, reports, k) == a
  {
    if Reported(reports, k) {
      var i := LastReport(reports, k);
    }
  }

  lemma {:induction false} LastReport(reports: seq<Report>, k: LinkKey) returns (i: nat)
    requires Reported(reports, k)
    ensures LastOf(reports, k, i) && forall j: nat | LastOf(reports, k, j) :: j == i
  {
    var n := |reports| - 1;
    if Of(reports[n], k) {
      i := n;
    } else {
      OneMore(true, reports, k);
      i := LastReport(reports[..n], k);
      assert forall j | 0 <= j < n :: reports[..n][j] == reports[j];
      forall j: nat ensures LastOf(reports[..n], k, j) <==> LastOf(reports, k, j) {
      }
    }
  }
}

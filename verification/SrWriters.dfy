/** The two writers of a satellite's kernel: the forwarding lines, then the routes of an addressable satellite.
    A ground station has the second only (satgonetem/routing/srmpls_daemon.py:751-776, 851-1041). */
module SrWriters {
  import opened Wrappers
  import opened LabelForwarding
  import opened SrInstall

  /** A kernel and what each writer remembers having sent. */
  datatype Memory = Memory(kernel: Kernel, forward: seq<Line>, routes: seq<Line>)

  function SentRoutes(s: Memory, wantRoutes: Option<seq<Line>>): seq<Line> {
    if wantRoutes.None? then [] else Changed(s.routes, wantRoutes.value)
  }

  /** One rebuild, after the devices towards some peers went. */
  function Rebuild(s: Memory, lost: set<nat>, wantForward: seq<Line>, wantRoutes: Option<seq<Line>>): Memory {
    var first := Install(State(Purge(s.kernel, lost), s.forward), wantForward);
    var second := if wantRoutes.None? then State(first.kernel, s.routes)
                  else Install(State(first.kernel, s.routes), wantRoutes.value);
    Memory(second.kernel, first.remembered, second.remembered)
  }

  predicate Distinct(wantForward: seq<Line>, wantRoutes: Option<seq<Line>>) {
    DistinctKeys(wantForward) && (wantRoutes.Some? ==> DistinctKeys(wantRoutes.value))
  }

  lemma InstallHas(s: State, wanted: seq<Line>, line: Line)
    requires DistinctKeys(wanted)
    ensures var sent := Changed(s.remembered, wanted);
            Has(Install(s, wanted).kernel, line) <==> line in sent || (!Mentions(sent, line.key) && Has(s.kernel, line))
  {
    ChangedMembers(s.remembered, wanted);
    ExecHas(s.kernel, Changed(s.remembered, wanted), line);
  }

  lemma PurgeHas(kernel: Kernel, lost: set<nat>, line: Line)
    ensures Has(Purge(kernel, lost), line) <==> Has(kernel, line) && !Through(line, lost)
  {
  }

  /** Whether a line stands after a rebuild: the last who sent a line for its key sent this one, or nobody sent
      one and it stood before. */
  lemma HasAfter(s: Memory, lost: set<nat>, wantForward: seq<Line>, wantRoutes: Option<seq<Line>>, line: Line)
    requires Distinct(wantForward, wantRoutes)
    ensures var first, second := Changed(s.forward, wantForward), SentRoutes(s, wantRoutes);
            Has(Rebuild(s, lost, wantForward, wantRoutes).kernel, line)
            <==> line in second
                 || (!Mentions(second, line.key)
                     && (line in first || (!Mentions(first, line.key) && Has(s.kernel, line) && !Through(line, lost))))
  {
    hide Install, Changed, Has, Purge, Through;
    PurgeHas(s.kernel, lost, line);
    InstallHas(State(Purge(s.kernel, lost), s.forward), wantForward, line);
    if wantRoutes.Some? {
      InstallHas(State(Install(State(Purge(s.kernel, lost), s.forward), wantForward).kernel, s.routes),
                 wantRoutes.value, line);
    }
  }

  /** A wanted line that is not sent again is remembered, and nothing that is sent has its key. */
  lemma NotSentAgain(remembered: seq<Line>, wanted: seq<Line>, line: Line)
    requires DistinctKeys(wanted) && line in wanted
    ensures line in Changed(remembered, wanted) <==> line !in remembered
    ensures line in remembered ==> !Mentions(Changed(remembered, wanted), line.key)
  {
    ChangedMembers(remembered, wanted);
    var sent := Changed(remembered, wanted);
    if line in remembered && Mentions(sent, line.key) {
      var i :| 0 <= i < |sent| && sent[i].key == line.key;
      assert sent[i] in sent;
      SameKeySameLine(wanted, sent[i], line);
    }
  }

  /** Exactly when each writer gets all it wants. */
  lemma WritersExact(s: Memory, lost: set<nat>, wantForward: seq<Line>, wantRoutes: seq<Line>)
    requires DistinctKeys(wantForward) && DistinctKeys(wantRoutes)
    ensures var first := Changed(s.forward, wantForward);
            Holds(Rebuild(s, lost, wantForward, Some(wantRoutes)).kernel, wantRoutes)
            <==> forall r | r in wantRoutes && r in s.routes ::
                   r in first || (!Mentions(first, r.key) && Has(s.kernel, r) && !Through(r, lost))
    ensures var second := Changed(s.routes, wantRoutes);
            Holds(Rebuild(s, lost, wantForward, Some(wantRoutes)).kernel, wantForward)
            <==> forall f | f in wantForward ::
                   || f in second
                   || (!Mentions(second, f.key) && (f !in s.forward || (Has(s.kernel, f) && !Through(f, lost))))
  {
    var first, second := Changed(s.forward, wantForward), Changed(s.routes, wantRoutes);
    var kernel := Rebuild(s, lost, wantForward, Some(wantRoutes)).kernel;
    hide Rebuild, Mentions, Has, Through, Changed, DistinctKeys;
    forall r | r in wantRoutes
      ensures Has(kernel, r) <==>
                (r in s.routes ==> r in first || (!Mentions(first, r.key) && Has(s.kernel, r) && !Through(r, lost)))
    {
      HasAfter(s, lost, wantForward, Some(wantRoutes), r);
      NotSentAgain(s.routes, wantRoutes, r);
    }
    forall f | f in wantForward
      ensures Has(kernel, f) <==>
                || f in second
                || (!Mentions(second, f.key) && (f !in s.forward || (Has(s.kernel, f) && !Through(f, lost))))
    {
      HasAfter(s, lost, wantForward, Some(wantRoutes), f);
      NotSentAgain(s.forward, wantForward, f);
    }
    InSequence(kernel, wantRoutes);
    InSequence(kernel, wantForward);
  }

  lemma InSequence(kernel: Kernel, lines: seq<Line>)
    ensures Holds(kernel, lines) <==> forall line | line in lines :: Has(kernel, line)
  {
  }

  /** Writers that disagree on a key cannot both get it; and a forwarding line that changes takes it from a route
      that does not, which is not sent again. */
  lemma DisagreeingWriters(s: Memory, lost: set<nat>, wantForward: seq<Line>, wantRoutes: seq<Line>, f: Line, r: Line)
    requires DistinctKeys(wantForward) && DistinctKeys(wantRoutes)
    requires f in wantForward && r in wantRoutes && f.key == r.key && f != r
    ensures var kernel := Rebuild(s, lost, wantForward, Some(wantRoutes)).kernel;
            && !(Holds(kernel, wantForward) && Holds(kernel, wantRoutes))
            && (f !in s.forward && r in s.routes ==> !Holds(kernel, wantRoutes))
  {
    var kernel := Rebuild(s, lost, wantForward, Some(wantRoutes)).kernel;
    InSequence(kernel, wantRoutes);
    InSequence(kernel, wantForward);
    NotSentAgain(s.forward, wantForward, f);
    WritersExact(s, lost, wantForward, wantRoutes);
    var first := Changed(s.forward, wantForward);
    if f !in s.forward {
      assert f in first && Mentions(first, r.key);
      if r in first {
        ChangedMembers(s.forward, wantForward);
        SameKeySameLine(first, f, r);
      }
    }
  }

  lemma AgreeIn(a: seq<Line>, b: seq<Line>)
    ensures Agree(a, b) <==> forall f, r | f in a && r in b && f.key == r.key :: f == r
  {
    if Agree(a, b) {
      forall f, r | f in a && r in b && f.key == r.key ensures f == r {
        var i :| 0 <= i < |a| && a[i] == f;
        var j :| 0 <= j < |b| && b[j] == r;
      }
    }
  }

  // ---- Runs ----

  /** What the memories may claim: a remembered route stands, and so does a remembered forwarding line unless a
      remembered route has its key. */
  ghost predicate Trusted(s: Memory) {
    && (forall r | r in s.routes :: Has(s.kernel, r))
    && forall f | f in s.forward && !Mentions(s.routes, f.key) :: Has(s.kernel, f)
  }

  /** What a rebuild is for: the routes stand, and so do the forwarding lines no wanted route has the key of. */
  ghost predicate Gets(kernel: Kernel, wantForward: seq<Line>, wantRoutes: Option<seq<Line>>) {
    && (wantRoutes.Some? ==> forall r | r in wantRoutes.value :: Has(kernel, r))
    && forall f | f in wantForward && (wantRoutes.Some? ==> !Mentions(wantRoutes.value, f.key)) :: Has(kernel, f)
  }

  /** Of what a rebuild got the forwarding lines are all there exactly when the two lists agree. */
  lemma GotBoth(kernel: Kernel, wantForward: seq<Line>, wantRoutes: seq<Line>)
    requires Gets(kernel, wantForward, Some(wantRoutes))
    ensures Holds(kernel, wantRoutes)
    ensures Holds(kernel, wantForward) <==> Agree(wantForward, wantRoutes)
  {
    InSequence(kernel, wantRoutes);
    InSequence(kernel, wantForward);
    AgreeIn(wantForward, wantRoutes);
    forall f | f in wantForward && Mentions(wantRoutes, f.key)
      ensures exists r :: r in wantRoutes && r.key == f.key && Has(kernel, r)
    {
      var i :| 0 <= i < |wantRoutes| && wantRoutes[i].key == f.key;
      assert wantRoutes[i] in wantRoutes;
    }
  }

  /** The list a writer remembers after a rebuild. */
  function Kept(remembered: seq<Line>, wanted: seq<Line>): seq<Line> {
    if Changed(remembered, wanted) == [] then remembered else wanted
  }

  function KeptRoutes(s: Memory, wantRoutes: Option<seq<Line>>): seq<Line> {
    if wantRoutes.None? then s.routes else Kept(s.routes, wantRoutes.value)
  }

  /** Nothing of the kernel is in this: a line that stays remembered without being sent again has not lost its
      device or its key. */
  ghost predicate Harmless(s: Memory, lost: set<nat>, wantForward: seq<Line>, wantRoutes: Option<seq<Line>>) {
    var first, second := Changed(s.forward, wantForward), SentRoutes(s, wantRoutes);
    && (forall r | r in KeptRoutes(s, wantRoutes) && r !in second ::
          r in first || (!Mentions(first, r.key) && !Through(r, lost)))
    && (forall f | f in Kept(s.forward, wantForward) && f !in first && !Mentions(KeptRoutes(s, wantRoutes), f.key) ::
          !Through(f, lost) && forall r | r in s.routes && r.key == f.key :: r == f)
    && (forall f | f in wantForward && (wantRoutes.Some? ==> !Mentions(wantRoutes.value, f.key)) ::
          forall r | r in KeptRoutes(s, wantRoutes) && r.key == f.key :: r == f)
  }

  lemma RebuildRemembers(s: Memory, lost: set<nat>, wantForward: seq<Line>, wantRoutes: Option<seq<Line>>)
    ensures var s' := Rebuild(s, lost, wantForward, wantRoutes);
            s'.forward == Kept(s.forward, wantForward) && s'.routes == KeptRoutes(s, wantRoutes)
  {
  }

  lemma KeptMembers(remembered: seq<Line>, wanted: seq<Line>, line: Line)
    ensures line in wanted ==> line in Kept(remembered, wanted)
    ensures line in Kept(remembered, wanted) ==> line in remembered || line in Changed(remembered, wanted)
    ensures line in Changed(remembered, wanted) ==> line in Kept(remembered, wanted) && line in wanted
  {
    ChangedMembers(remembered, wanted);
    assert Changed(remembered, wanted) == [] ==> line !in Changed(remembered, wanted);
  }

  /** Whether a route that stays remembered still stands. */
  lemma RouteStands(s: Memory, lost: set<nat>, wantForward: seq<Line>, wantRoutes: Option<seq<Line>>, r: Line)
    requires Distinct(wantForward, wantRoutes) && Trusted(s) && r in KeptRoutes(s, wantRoutes)
    ensures var first, second := Changed(s.forward, wantForward), SentRoutes(s, wantRoutes);
            Has(Rebuild(s, lost, wantForward, wantRoutes).kernel, r)
            <==> r in second || r in first || (!Mentions(first, r.key) && !Through(r, lost))
  {
    var second := SentRoutes(s, wantRoutes);
    if r !in second {
      if wantRoutes.Some? {
        KeptUnmentioned(s.routes, wantRoutes.value, r);
      }
      assert !Mentions(second, r.key) && r in s.routes && Has(s.kernel, r);
    }
    hide Rebuild, Has, Through, Mentions, DistinctKeys, Changed;
    HasAfter(s, lost, wantForward, wantRoutes, r);
  }

  /** A line that stays remembered and is not sent shares its key with no line that is sent. */
  lemma KeptUnmentioned(remembered: seq<Line>, wanted: seq<Line>, line: Line)
    requires DistinctKeys(wanted) && line in Kept(remembered, wanted) && line !in Changed(remembered, wanted)
    ensures !Mentions(Changed(remembered, wanted), line.key) && line in remembered
  {
    ChangedMembers(remembered, wanted);
    if Changed(remembered, wanted) != [] {
      NotSentAgain(remembered, wanted, line);
    }
  }

  /** Whether a forwarding line stands that stays remembered and whose key no remembered route has. */
  lemma ForwardStands(s: Memory, lost: set<nat>, wantForward: seq<Line>, wantRoutes: Option<seq<Line>>, f: Line)
    requires Distinct(wantForward, wantRoutes) && Trusted(s)
    requires f in Kept(s.forward, wantForward) && !Mentions(KeptRoutes(s, wantRoutes), f.key)
    ensures Has(Rebuild(s, lost, wantForward, wantRoutes).kernel, f)
            <==> f in Changed(s.forward, wantForward)
                 || (!Through(f, lost) && forall r | r in s.routes && r.key == f.key :: r == f)
  {
    var first, second := Changed(s.forward, wantForward), SentRoutes(s, wantRoutes);
    SentAreKept(s, wantRoutes, f.key);
    assert f !in second;
    if f !in first {
      KeptUnmentioned(s.forward, wantForward, f);
      StandsBefore(s, f);
    }
    hide Rebuild, Has, Through, Mentions, DistinctKeys, Changed, Trusted, SentRoutes;
    HasAfter(s, lost, wantForward, wantRoutes, f);
  }

  lemma SentAreKept(s: Memory, wantRoutes: Option<seq<Line>>, key: Key)
    requires !Mentions(KeptRoutes(s, wantRoutes), key)
    ensures !Mentions(SentRoutes(s, wantRoutes), key)
  {
    if wantRoutes.Some? && Mentions(SentRoutes(s, wantRoutes), key) {
      var sent := SentRoutes(s, wantRoutes);
      var i :| 0 <= i < |sent| && sent[i].key == key;
      assert sent[i] in sent;
      KeptMembers(s.routes, wantRoutes.value, sent[i]);
    }
  }

  /** In a trusted memory a remembered forwarding line stands exactly if no other route has its key. */
  lemma StandsBefore(s: Memory, f: Line)
    requires Trusted(s) && f in s.forward
    ensures Has(s.kernel, f) <==> forall r | r in s.routes && r.key == f.key :: r == f
  {
    if Mentions(s.routes, f.key) {
      var i :| 0 <= i < |s.routes| && s.routes[i].key == f.key;
      assert s.routes[i] in s.routes;
    }
  }

  /** Whether a wanted forwarding line stands that no wanted route has the key of, if the memory can be trusted
      afterwards: no other route is remembered for its key. */
  lemma WantedStands(s: Memory, lost: set<nat>, wantForward: seq<Line>, wantRoutes: Option<seq<Line>>, f: Line)
    requires Distinct(wantForward, wantRoutes) && Trusted(Rebuild(s, lost, wantForward, wantRoutes)) && f in wantForward
    ensures Has(Rebuild(s, lost, wantForward, wantRoutes).kernel, f)
            <==> forall r | r in KeptRoutes(s, wantRoutes) && r.key == f.key :: r == f
  {
    RebuildRemembers(s, lost, wantForward, wantRoutes);
    KeptMembers(s.forward, wantForward, f);
    StandsBefore(Rebuild(s, lost, wantForward, wantRoutes), f);
  }

  /** A rebuild from a trusted memory gets what it wants and leaves a trusted memory exactly when it is
      harmless. */
  lemma RebuildExact(s: Memory, lost: set<nat>, wantForward: seq<Line>, wantRoutes: Option<seq<Line>>)
    requires Distinct(wantForward, wantRoutes) && Trusted(s)
    ensures var s' := Rebuild(s, lost, wantForward, wantRoutes);
            Trusted(s') && Gets(s'.kernel, wantForward, wantRoutes) <==> Harmless(s, lost, wantForward, wantRoutes)
  {
    var s' := Rebuild(s, lost, wantForward, wantRoutes);
    var first, second := Changed(s.forward, wantForward), SentRoutes(s, wantRoutes);
    RebuildRemembers(s, lost, wantForward, wantRoutes);
    hide Rebuild, Has, Through, Mentions, DistinctKeys, Changed, SentRoutes, Kept, KeptRoutes;
    forall r | r in s'.routes
      ensures Has(s'.kernel, r) <==> (r !in second ==> r in first || (!Mentions(first, r.key) && !Through(r, lost)))
    {
      RouteStands(s, lost, wantForward, wantRoutes, r);
    }
    forall f | f in s'.forward && !Mentions(s'.routes, f.key)
      ensures Has(s'.kernel, f)
              <==> (f !in first ==> !Through(f, lost) && forall r | r in s.routes && r.key == f.key :: r == f)
    {
      ForwardStands(s, lost, wantForward, wantRoutes, f);
    }
    if Trusted(s') {
      RoutesGot(s, lost, wantForward, wantRoutes);
      forall f | f in wantForward
        ensures Has(s'.kernel, f) <==> forall r | r in KeptRoutes(s, wantRoutes) && r.key == f.key :: r == f
      {
        WantedStands(s, lost, wantForward, wantRoutes, f);
      }
    }
  }

  /** Wanted routes are remembered ones. */
  lemma RoutesGot(s: Memory, lost: set<nat>, wantForward: seq<Line>, wantRoutes: Option<seq<Line>>)
    requires Trusted(Rebuild(s, lost, wantForward, wantRoutes))
    ensures wantRoutes.Some? ==>
              forall r | r in wantRoutes.value :: Has(Rebuild(s, lost, wantForward, wantRoutes).kernel, r)
  {
    RebuildRemembers(s, lost, wantForward, wantRoutes);
    if wantRoutes.Some? {
      forall r | r in wantRoutes.value ensures r in KeptRoutes(s, wantRoutes) {
        KeptMembers(s.routes, wantRoutes.value, r);
      }
    }
  }

  /** A rebuild that remembers nothing is harmless. */
  lemma FreshRebuild(kernel: Kernel, wantForward: seq<Line>, wantRoutes: Option<seq<Line>>)
    requires Distinct(wantForward, wantRoutes)
    ensures var s' := Rebuild(Memory(kernel, [], []), {}, wantForward, wantRoutes);
            Trusted(s') && Gets(s'.kernel, wantForward, wantRoutes)
  {
    var s := Memory(kernel, [], []);
    forall line ensures line in Kept([], wantForward) ==> line in Changed([], wantForward) {
      KeptMembers([], wantForward, line);
    }
    if wantRoutes.Some? {
      forall line
        ensures line in Kept([], wantRoutes.value) ==> line in wantRoutes.value && line in SentRoutes(s, wantRoutes)
      {
        KeptMembers([], wantRoutes.value, line);
      }
    }
    RebuildExact(s, {}, wantForward, wantRoutes);
  }
}

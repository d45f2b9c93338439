/** When a node has what it wants after every update, whatever its memory claims
    (satgonetem/routing/srmpls_daemon.py:360-420, 851-1041). */
module SrServing {
  import opened Wrappers
  import opened LabelForwarding
  import opened SrRoutes
  import opened SrInstall
  import opened SrWriters
  import opened SrDelivery
  import opened SrRuns

  // ---- One event, by what is remembered ----

  /** What the first and the second writer of a node send. */
  function FirstSent(s: Memory, n: nat, e: NetEvent): seq<Line>
    requires Proper(e)
  {
    match e
    case Update(v, _) => Changed(s.forward, WantForward(v, n))
    case Init(v, _) => Changed([], WantForward(v, n))
    case _ => []
  }

  function SecondSent(s: Memory, n: nat, e: NetEvent): seq<Line>
    requires Proper(e)
  {
    match e
    case Update(v, _) => SentRoutes(s, WantRoutes(v, n))
    case Init(v, _) => SentRoutes(Memory(s.kernel, [], []), WantRoutes(v, n))
    case Resend(v, src) =>
      if n == src && n in v.stations && n in v.nodes && n in v.sids then StationRoutes(v, n) else []
    case Remove(_) => []
  }

  /** The event leaves the line in the kernel: the last who sends one for its key sends this one. */
  ghost predicate Sets(s: Memory, n: nat, e: NetEvent, line: Line)
    requires Proper(e)
  {
    line in SecondSent(s, n, e) || (!Mentions(SecondSent(s, n, e), line.key) && line in FirstSent(s, n, e))
  }

  /** The event takes the line away: its device goes, or its label is flushed. */
  predicate Takes(n: nat, e: NetEvent, line: Line) {
    match e
    case Update(_, lost) => Through(line, LostAt(lost, n))
    case Init(_, lost) => Through(line, LostAt(lost, n))
    case Resend(_, _) => false
    case Remove(flushed) => n in flushed && line.key.ForLabel?
  }

  /** The event leaves the key alone. */
  ghost predicate Spares(s: Memory, n: nat, e: NetEvent, line: Line)
    requires Proper(e)
  {
    !Mentions(SecondSent(s, n, e), line.key) && !Mentions(FirstSent(s, n, e), line.key) && !Takes(n, e, line)
  }

  lemma StandsNext(s: Memory, n: nat, e: NetEvent, line: Line)
    requires Proper(e)
    ensures Has(NodeNext(s, n, e).kernel, line)
            <==> Sets(s, n, e, line) || (Spares(s, n, e, line) && Has(s.kernel, line))
  {
    hide WellFormed, WantForward, WantRoutes, Changed, SentRoutes, StationRoutes, Rebuild, Exec, Through;
    match e
    case Update(v, lost) =>
      WantedOnce(v, n);
      HasAfter(s, LostAt(lost, n), WantForward(v, n), WantRoutes(v, n), line);
    case Init(v, lost) =>
      WantedOnce(v, n);
      HasAfter(Memory(s.kernel, [], []), LostAt(lost, n), WantForward(v, n), WantRoutes(v, n), line);
    case Resend(v, src) =>
      if n == src && n in v.stations && n in v.nodes && n in v.sids {
        StationRoutesDistinct(v, n);
        ExecHas(s.kernel, StationRoutes(v, n), line);
      }
    case Remove(flushed) =>
  }

  // ---- Runs ----

  /** The last event that did not spare the line left it in the kernel, or there was none and it was there. */
  ghost predicate LeftStanding(s: Memory, n: nat, events: seq<NetEvent>, line: Line)
    requires AllProper(events)
  {
    || (Has(s.kernel, line) && SparedFrom(s, n, events, 0, line))
    || exists i :: 0 <= i < |events| && SetAt(s, n, events, i, line)
  }

  /** The line was set then and has been spared since. */
  ghost predicate SetAt(s: Memory, n: nat, events: seq<NetEvent>, i: nat, line: Line)
    requires AllProper(events) && i < |events|
  {
    Sets(NodeRun(s, n, events[..i]), n, events[i], line) && SparedFrom(s, n, events, i + 1, line)
  }

  ghost predicate SparedFrom(s: Memory, n: nat, events: seq<NetEvent>, from: nat, line: Line)
    requires AllProper(events)
  {
    forall j | from <= j < |events| :: Spares(NodeRun(s, n, events[..j]), n, events[j], line)
  }

  lemma SparedNext(s: Memory, n: nat, events: seq<NetEvent>, from: nat, line: Line)
    requires AllProper(events) && events != [] && from < |events|
    ensures var k := |events| - 1;
            SparedFrom(s, n, events, from, line)
            <==> SparedFrom(s, n, events[..k], from, line) && Spares(NodeRun(s, n, events[..k]), n, events[k], line)
  {
    var k := |events| - 1;
    hide Spares, NodeRun, Proper;
    assert AllProper(events[..k]);
    assert forall j | 0 <= j < k :: events[..k][..j] == events[..j] && events[..k][j] == events[j];
  }

  lemma SamePrefix(events: seq<NetEvent>, i: nat)
    requires AllProper(events) && i < |events| - 1
    ensures var init := events[..|events| - 1];
            AllProper(init) && init[..i] == events[..i] && init[i] == events[i] && AllProper(events[..i])
  {
    hide Proper;
  }

  lemma SetBefore(s: Memory, n: nat, events: seq<NetEvent>, i: nat, line: Line)
    requires AllProper(events) && i < |events| - 1
    ensures var k := |events| - 1;
            AllProper(events[..k])
            && (SetAt(s, n, events, i, line)
                <==> SetAt(s, n, events[..k], i, line) && Spares(NodeRun(s, n, events[..k]), n, events[k], line))
  {
    SamePrefix(events, i);
    SparedNext(s, n, events, i + 1, line);
    hide Sets, Spares, NodeRun, SparedFrom, Proper;
  }

  lemma SetLast(s: Memory, n: nat, events: seq<NetEvent>, line: Line)
    requires AllProper(events) && events != []
    ensures var k := |events| - 1;
            SetAt(s, n, events, k, line) <==> Sets(NodeRun(s, n, events[..k]), n, events[k], line)
  {
    hide Sets, Spares, NodeRun;
  }

  lemma LeftThen(s: Memory, n: nat, events: seq<NetEvent>, line: Line)
    requires AllProper(events) && events != [] && LeftStanding(s, n, events, line)
    ensures var k := |events| - 1;
            || Sets(NodeRun(s, n, events[..k]), n, events[k], line)
            || (Spares(NodeRun(s, n, events[..k]), n, events[k], line) && LeftStanding(s, n, events[..k], line))
  {
    var k := |events| - 1;
    assert AllProper(events[..k]);
    hide Sets, Spares, NodeRun, AllProper, SetAt, SparedFrom, Has;
    if Has(s.kernel, line) && SparedFrom(s, n, events, 0, line) {
      SparedNext(s, n, events, 0, line);
    } else {
      var i: nat :| i < |events| && SetAt(s, n, events, i, line);
      if i == k {
        SetLast(s, n, events, line);
      } else {
        SetBefore(s, n, events, i, line);
      }
    }
  }

  lemma LeftBack(s: Memory, n: nat, events: seq<NetEvent>, line: Line)
    requires AllProper(events) && events != []
    requires var k := |events| - 1;
             || Sets(NodeRun(s, n, events[..k]), n, events[k], line)
             || (Spares(NodeRun(s, n, events[..k]), n, events[k], line) && LeftStanding(s, n, events[..k], line))
    ensures LeftStanding(s, n, events, line)
  {
    var k := |events| - 1;
    assert AllProper(events[..k]);
    hide Sets, Spares, NodeRun, AllProper, SetAt, SparedFrom, Has;
    if Sets(NodeRun(s, n, events[..k]), n, events[k], line) {
      SetLast(s, n, events, line);
      assert SetAt(s, n, events, k, line);
    } else if Has(s.kernel, line) && SparedFrom(s, n, events[..k], 0, line) {
      SparedNext(s, n, events, 0, line);
    } else {
      var i: nat :| i < k && SetAt(s, n, events[..k], i, line);
      SetBefore(s, n, events, i, line);
      assert SetAt(s, n, events, i, line);
    }
  }

  /** Exactly which lines are in the kernel of a node after a run. */
  lemma {:induction false} StandsExact(s: Memory, n: nat, events: seq<NetEvent>, line: Line)
    requires AllProper(events)
    ensures Has(NodeRun(s, n, events).kernel, line) <==> LeftStanding(s, n, events, line)
  {
    if events != [] {
      var k := |events| - 1;
      assert AllProper(events[..k]);
      assert Proper(events[k]);
      hide Sets, Spares, Proper, AllProper, LeftStanding, NodeNext;
      StandsExact(s, n, events[..k], line);
      StandsNext(NodeRun(s, n, events[..k]), n, events[k], line);
      if LeftStanding(s, n, events, line) {
        LeftThen(s, n, events, line);
      }
      if Has(NodeRun(s, n, events).kernel, line) {
        LeftBack(s, n, events, line);
      }
    }
  }

  /** What a node should have: its routes, and the forwarding lines whose keys they leave free. */
  ghost predicate Due(v: View, n: nat, line: Line)
    requires WellFormed(v)
  {
    var routes := WantRoutes(v, n);
    if routes.Some? && Mentions(routes.value, line.key) then line in routes.value else line in WantForward(v, n)
  }

  lemma ServedIsDue(v: View, n: nat, kernel: Kernel)
    requires WellFormed(v)
    ensures Served(v, n, kernel) <==> forall line | Due(v, n, line) :: Has(kernel, line)
  {
    hide WellFormed, WantForward, WantRoutes, Has;
    var routes := WantRoutes(v, n);
    if routes.Some? {
      forall r | r in routes.value ensures Mentions(routes.value, r.key) {
        IsMentioned(routes.value, r);
      }
    }
    forall line | Served(v, n, kernel) && Due(v, n, line) ensures Has(kernel, line) {
    }
    if forall line | Due(v, n, line) :: Has(kernel, line) {
      forall r | routes.Some? && r in routes.value ensures Has(kernel, r) {
        assert Due(v, n, r);
      }
      forall f | f in WantForward(v, n) && (routes.Some? ==> !Mentions(routes.value, f.key)) ensures Has(kernel, f) {
        assert Due(v, n, f);
      }
    }
  }

  /** After every update and every init the node has what it wants. */
  ghost predicate AlwaysServed(s: Memory, n: nat, events: seq<NetEvent>)
    requires AllProper(events)
  {
    forall p | p <= events && p != [] && (p[|p| - 1].Update? || p[|p| - 1].Init?) ::
      AllProper(p) && Proper(p[|p| - 1]) && Served(p[|p| - 1].view, n, NodeRun(s, n, p).kernel)
  }

  /** Every line that is due after an event was left standing. */
  ghost predicate DueStands(s: Memory, n: nat, events: seq<NetEvent>)
    requires AllProper(events) && events != [] && (events[|events| - 1].Update? || events[|events| - 1].Init?)
  {
    var v := events[|events| - 1].view;
    assert Proper(events[|events| - 1]);
    forall line | Due(v, n, line) :: LeftStanding(s, n, events, line)
  }

  lemma ServedExact(s: Memory, n: nat, events: seq<NetEvent>)
    requires AllProper(events) && events != [] && (events[|events| - 1].Update? || events[|events| - 1].Init?)
    ensures Proper(events[|events| - 1])
    ensures Served(events[|events| - 1].view, n, NodeRun(s, n, events).kernel) <==> DueStands(s, n, events)
  {
    assert Proper(events[|events| - 1]);
    var v := events[|events| - 1].view;
    hide Served, Due, LeftStanding, NodeRun, WellFormed;
    ServedIsDue(v, n, NodeRun(s, n, events).kernel);
    forall line ensures Has(NodeRun(s, n, events).kernel, line) <==> LeftStanding(s, n, events, line) {
      StandsExact(s, n, events, line);
    }
  }

  /** Exactly the runs in which every line that is due at an update was left standing: somebody sent it, and since then
      nobody sent another one for its key and its device stayed. Memories need not be trusted. */
  lemma AlwaysServedExact(s: Memory, n: nat, events: seq<NetEvent>)
    requires AllProper(events)
    ensures AlwaysServed(s, n, events)
            <==> forall p | p <= events && p != [] && (p[|p| - 1].Update? || p[|p| - 1].Init?) ::
                   AllProper(p) && DueStands(s, n, p)
  {
    hide Served, DueStands, NodeRun, WellFormed;
    forall p | p <= events && p != [] && (p[|p| - 1].Update? || p[|p| - 1].Init?)
      ensures AllProper(p)
      ensures Served(p[|p| - 1].view, n, NodeRun(s, n, p).kernel) <==> DueStands(s, n, p)
    {
      assert forall i | 0 <= i < |p| :: p[i] == events[i];
      ServedExact(s, n, p);
    }
  }
}

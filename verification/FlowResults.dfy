/** Which flows have results and which are errors, said of what happened in the run
    (satgonetem/traffic/flow_scheduler.py:66-117, 262-330, 344-420). */
module FlowResults {
  import opened Wrappers
  import opened Flows
  import opened FlowMachine

  /** A worker has tried to start the flow. */
  ghost predicate Tried(c: Config, events: seq<Event>, f: nat) {
    exists j: nat :: j < |c.jobs| && c.jobs[j].flow == f && StartFlow(j) in events
  }

  /** The worker of the job was the first to try, and the flow was idle when the run began. */
  ghost predicate StartedIt(c: Config, flows: map<nat, Flow>, events: seq<Event>, j: nat)
    requires j < |c.jobs|
  {
    && c.jobs[j].flow in flows && flows[c.jobs[j].flow].status == Idle
    && exists i: nat :: i < |events| && events[i] == StartFlow(j) && !Tried(c, events[..i], c.jobs[j].flow)
  }

  /** The job started its flow, the join came back in time, and the flow came to a good end. */
  ghost predicate Succeeded(c: Config, flows: map<nat, Flow>, events: seq<Event>, j: nat)
    requires j < |c.jobs|
  {
    StartedIt(c, flows, events, j) && Joined(j) in events && FlowEnds(c.jobs[j].flow, true) in events
  }

  // ---- What the state shows of the past ----

  predicate Back(p: Phase) {
    (p.Leaving? || p.Uncounted? || p.Finished?) && p.exit.Came?
  }

  ghost predicate FlowsTell(c: Config, flows: map<nat, Flow>, events: seq<Event>, s: State) {
    forall f | f in s.flows ::
      && f in flows && (s.flows[f].status == Idle <==> flows[f].status == Idle && !Tried(c, events, f))
      && (flows[f].status == Idle ==> (s.flows[f].status == Done <==> FlowEnds(f, true) in events))
  }

  ghost predicate JobsTell(c: Config, flows: map<nat, Flow>, events: seq<Event>, s: State) {
    && Fits(c, s)
    && forall j: nat | j < |c.jobs| ::
         && (Owns(s.phases[j]) <==> StartedIt(c, flows, events, j))
         && (Back(s.phases[j]) <==> Joined(j) in events)
         && (s.phases[j].Finished? ==> (s.phases[j].ok <==> Back(s.phases[j]) && FlowOf(c, s, j).status == Done))
  }

  // ---- One event more ----

  lemma OneMore(c: Config, events: seq<Event>)
    requires events != []
    ensures var n := |events| - 1; forall e :: e in events <==> e in events[..n] || e == events[n]
  {
    var n := |events| - 1;
    assert events == events[..n] + [events[n]];
  }

  lemma TriedMore(c: Config, events: seq<Event>, f: nat)
    requires events != []
    ensures var e := events[|events| - 1];
            Tried(c, events, f)
            <==> Tried(c, events[..|events| - 1], f) || (e.StartFlow? && e.j < |c.jobs| && c.jobs[e.j].flow == f)
  {
    OneMore(c, events);
  }

  lemma StartedMore(c: Config, flows: map<nat, Flow>, events: seq<Event>, j: nat)
    requires events != [] && j < |c.jobs| && c.jobs[j].flow in flows
    ensures var n := |events| - 1;
            StartedIt(c, flows, events, j)
            <==> || StartedIt(c, flows, events[..n], j)
                 || (events[n] == StartFlow(j) && flows[c.jobs[j].flow].status == Idle
                     && !Tried(c, events[..n], c.jobs[j].flow))
  {
    var n := |events| - 1;
    assert forall i | 0 <= i <= n :: events[..n][..i] == events[..i];
    hide Tried;
  }

  /** What a step does to the status of a flow. */
  lemma FlowStep(c: Config, m: State, e: Event, f: nat)
    requires Fits(c, m) && Next(c, m, e).Some? && f in m.flows
    ensures f in Next(c, m, e).value.flows
    ensures Next(c, m, e).value.flows[f].status
            == if e.StartFlow? && e.j < |c.jobs| && c.jobs[e.j].flow == f && m.flows[f].status == Idle then Running
               else if e.FlowEnds? && e.f == f then (if e.ok then Done else Failed)
               else m.flows[f].status
    ensures e.FlowEnds? && e.f == f ==> m.flows[f].status == Running
  {
  }

  /** What a step does to the phase of a job. */
  lemma PhaseStep(c: Config, m: State, e: Event, j: nat)
    requires InOrder(c, m) && Next(c, m, e).Some? && j < |c.jobs|
    ensures var p, q := m.phases[j], Next(c, m, e).value.phases[j];
            && (Owns(q) <==> Owns(p) || (e == StartFlow(j) && FlowOf(c, m, j).status == Idle))
            && (Back(q) <==> Back(p) || e == Joined(j))
            && (q.Finished? && p != q ==> (q.ok <==> Back(q) && FlowOf(c, m, j).status == Done))
            && (p.Finished? ==> q == p)
  {
    var s := Next(c, m, e).value;
    if WorkerStep(e) {
      WorkerPhase(c, m, e, j);
    } else if e.Submit? {
    } else {
      assert s.phases == m.phases;
    }
  }

  lemma WorkerPhase(c: Config, m: State, e: Event, j: nat)
    requires Fits(c, m) && Next(c, m, e).Some? && WorkerStep(e) && j < |c.jobs|
    ensures var p, q := m.phases[j], Next(c, m, e).value.phases[j];
            && (Owns(q) <==> Owns(p) || (e == StartFlow(j) && FlowOf(c, m, j).status == Idle))
            && (Back(q) <==> Back(p) || e == Joined(j))
            && (q.Finished? && p != q ==> (q.ok <==> Back(q) && FlowOf(c, m, j).status == Done))
            && (p.Finished? ==> q == p)
  {
    WorkerOrder(c, m, e);
    if j == Subject(m, e) {
      OwnPhase(c, m, e);
    } else {
      hide Next;
    }
  }

  lemma OwnPhase(c: Config, m: State, e: Event)
    requires Fits(c, m) && Next(c, m, e).Some? && WorkerStep(e)
    ensures var j := Subject(m, e);
            && j < |c.jobs| && !m.phases[j].Finished?
            && var p, q := m.phases[j], Next(c, m, e).value.phases[j];
               && (Owns(q) <==> Owns(p) || (e == StartFlow(j) && FlowOf(c, m, j).status == Idle))
               && (Back(q) <==> Back(p) || e == Joined(j))
               && (q.Finished? ==> (q.ok <==> Back(q) && FlowOf(c, m, j).status == Done))
  {
  }

  lemma FlowsTellNext(c: Config, flows: map<nat, Flow>, events: seq<Event>, m: State, s: State)
    requires events != [] && Fits(c, m) && Next(c, m, events[|events| - 1]) == Some(s)
    requires FlowsTell(c, flows, events[..|events| - 1], m)
    ensures FlowsTell(c, flows, events, s)
  {
    var n := |events| - 1;
    hide Next, Tried;
    KeysStay(c, m, events[n]);
    OneMore(c, events);
    forall f | f in s.flows
      ensures f in flows && (s.flows[f].status == Idle <==> flows[f].status == Idle && !Tried(c, events, f))
      ensures flows[f].status == Idle ==> (s.flows[f].status == Done <==> FlowEnds(f, true) in events)
    {
      FlowStep(c, m, events[n], f);
      TriedMore(c, events, f);
    }
  }

  lemma KeysStay(c: Config, m: State, e: Event)
    requires Fits(c, m) && Next(c, m, e).Some?
    ensures Next(c, m, e).value.flows.Keys == m.flows.Keys && Fits(c, Next(c, m, e).value)
  {
  }

  lemma JobsTellNext(c: Config, flows: map<nat, Flow>, events: seq<Event>, m: State, s: State)
    requires events != [] && InOrder(c, m) && Next(c, m, events[|events| - 1]) == Some(s)
    requires Owned(c, Initial(c, flows), m)
    requires FlowsTell(c, flows, events[..|events| - 1], m) && JobsTell(c, flows, events[..|events| - 1], m)
    ensures JobsTell(c, flows, events, s)
  {
    InOrderFits(c, m);
    KeysStay(c, m, events[|events| - 1]);
    hide Next, Tried, InOrder, Owned, FlowsTell, StartedIt;
    forall j: nat | j < |c.jobs|
      ensures Owns(s.phases[j]) <==> StartedIt(c, flows, events, j)
      ensures Back(s.phases[j]) <==> Joined(j) in events
      ensures s.phases[j].Finished? ==> (s.phases[j].ok <==> Back(s.phases[j]) && FlowOf(c, s, j).status == Done)
    {
      JobTellsNext(c, flows, events, m, s, j);
    }
  }

  lemma JobTellsNext(c: Config, flows: map<nat, Flow>, events: seq<Event>, m: State, s: State, j: nat)
    requires events != [] && InOrder(c, m) && Next(c, m, events[|events| - 1]) == Some(s) && Fits(c, s)
    requires Owned(c, Initial(c, flows), m) && j < |c.jobs|
    requires FlowsTell(c, flows, events[..|events| - 1], m) && JobsTell(c, flows, events[..|events| - 1], m)
    ensures Owns(s.phases[j]) <==> StartedIt(c, flows, events, j)
    ensures Back(s.phases[j]) <==> Joined(j) in events
    ensures s.phases[j].Finished? ==> (s.phases[j].ok <==> Back(s.phases[j]) && FlowOf(c, s, j).status == Done)
  {
    var n := |events| - 1;
    var f := c.jobs[j].flow;
    assert f in m.flows && f in flows;
    assert m.flows[f].status == Idle <==> flows[f].status == Idle && !Tried(c, events[..n], f);
    BackEnded(c, flows, m, j);
    hide Next, Tried, Owned, FlowsTell, StartedIt;
    OneMore(c, events);
    StartedMore(c, flows, events, j);
    PhaseStep(c, m, events[n], j);
    FlowStep(c, m, events[n], f);
  }

  /** A flow whose job came back has ended. */
  lemma BackEnded(c: Config, flows: map<nat, Flow>, m: State, j: nat)
    requires Owned(c, Initial(c, flows), m) && j < |c.jobs|
    ensures Back(m.phases[j]) ==> FlowOf(c, m, j).status != Running && FlowOf(c, m, j).status != Idle
  {
  }

  lemma {:induction false} PastShown(c: Config, flows: map<nat, Flow>, events: seq<Event>, s: State)
    requires c.maxWorkers >= 1 && forall i | 0 <= i < |c.jobs| :: c.jobs[i].flow in flows
    requires Reachable(c, Initial(c, flows), events, s)
    ensures FlowsTell(c, flows, events, s) && JobsTell(c, flows, events, s)
    decreases |events|
  {
    hide Next, FlowsTell, JobsTell, Invariant, Owned, InOrder;
    if events == [] {
      NothingYet(c, flows);
    } else {
      var n := |events| - 1;
      var m :| Reachable(c, Initial(c, flows), events[..n], m) && Fits(c, m) && Next(c, m, events[n]) == Some(s);
      PastShown(c, flows, events[..n], m);
      EveryMoment(c, flows, events[..n], m);
      Parts(c, Initial(c, flows), m);
      FlowsTellNext(c, flows, events, m, s);
      JobsTellNext(c, flows, events, m, s);
    }
  }

  lemma NothingYet(c: Config, flows: map<nat, Flow>)
    requires forall i | 0 <= i < |c.jobs| :: c.jobs[i].flow in flows
    ensures FlowsTell(c, flows, [], Initial(c, flows)) && JobsTell(c, flows, [], Initial(c, flows))
  {
    forall j: nat | j < |c.jobs| ensures !StartedIt(c, flows, [], j) {
    }
  }

  lemma Parts(c: Config, start: State, s: State)
    requires Invariant(c, start, s)
    ensures InOrder(c, s) && Owned(c, start, s) && Sorted(c, s)
  {
  }

  // ---- Results and errors ----

  /** At most one job starts a flow. */
  lemma OneStarter(c: Config, flows: map<nat, Flow>, events: seq<Event>, i: nat, j: nat)
    requires i < |c.jobs| && j < |c.jobs| && c.jobs[i].flow == c.jobs[j].flow
    requires StartedIt(c, flows, events, i) && StartedIt(c, flows, events, j)
    ensures i == j
  {
    var f := c.jobs[i].flow;
    var a: nat :| a < |events| && events[a] == StartFlow(i) && !Tried(c, events[..a], f);
    var b: nat :| b < |events| && events[b] == StartFlow(j) && !Tried(c, events[..b], f);
    NotBefore(c, events, i, a, b);
    NotBefore(c, events, j, b, a);
  }

  lemma NotBefore(c: Config, events: seq<Event>, i: nat, a: nat, b: nat)
    requires i < |c.jobs| && a < |events| && b < |events| && events[a] == StartFlow(i)
    ensures a < b ==> Tried(c, events[..b], c.jobs[i].flow)
  {
    if a < b {
      assert events[..b][a] in events[..b];
    }
  }

  lemma FinishedJob(c: Config, flows: map<nat, Flow>, events: seq<Event>, s: State, j: nat)
    requires FlowsTell(c, flows, events, s) && JobsTell(c, flows, events, s) && j < |c.jobs|
    requires s.phases[j].Finished?
    ensures s.phases[j].ok <==> Succeeded(c, flows, events, j)
  {
    assert c.jobs[j].flow in s.flows;
    hide Tried, StartedIt;
    assert Owns(s.phases[j]) <==> StartedIt(c, flows, events, j);
    if StartedIt(c, flows, events, j) {
      assert flows[c.jobs[j].flow].status == Idle by { StarterWasIdle(c, flows, events, j); }
    }
  }

  lemma StarterWasIdle(c: Config, flows: map<nat, Flow>, events: seq<Event>, j: nat)
    requires j < |c.jobs| && StartedIt(c, flows, events, j)
    ensures c.jobs[j].flow in flows && flows[c.jobs[j].flow].status == Idle
  {
  }

  /** When the scheduler is done, over every run: the errors are exactly the jobs that did not succeed, and with saved
      results the results are exactly those that did. */
  lemma ResultsExact(c: Config, flows: map<nat, Flow>, events: seq<Event>, s: State, j: nat)
    requires c.maxWorkers >= 1 && forall i | 0 <= i < |c.jobs| :: c.jobs[i].flow in flows
    requires Reachable(c, Initial(c, flows), events, s) && s.status == DONE
    ensures j in s.errors <==> j < |c.jobs| && !Succeeded(c, flows, events, j)
    ensures j in s.results <==> j < |c.jobs| && c.saveResults && Succeeded(c, flows, events, j)
  {
    PastShown(c, flows, events, s);
    EveryMoment(c, flows, events, s);
    Parts(c, Initial(c, flows), s);
    hide Invariant, InOrder, Owned, FlowsTell, JobsTell, Succeeded, Reachable, Mapped;
    if j < |c.jobs| {
      assert j in s.collected && s.phases[j].Finished?;
      FinishedJob(c, flows, events, s, j);
    }
  }

  /** So errors() lists exactly those, and results(flow) gives a flow's result exactly if one of its jobs succeeded;
      it has no other. Before the scheduler is done, and without saved results, there is neither. */
  lemma AnswersExact(c: Config, flows: map<nat, Flow>, events: seq<Event>, s: State, f: nat)
    requires c.maxWorkers >= 1 && forall i | 0 <= i < |c.jobs| :: c.jobs[i].flow in flows
    requires Reachable(c, Initial(c, flows), events, s)
    ensures s.status == DONE ==>
              && Errors(s).Ok? && |Errors(s).value| <= |c.jobs|
              && forall j: nat :: j in Errors(s).value <==> j < |c.jobs| && !Succeeded(c, flows, events, j)
    ensures s.status == DONE && c.saveResults ==>
              && (forall j: nat :: ResultOf(c, s, f) == Ok(j)
                                   <==> j < |c.jobs| && c.jobs[j].flow == f && Succeeded(c, flows, events, j))
              && (ResultOf(c, s, f).Err? ==> ResultOf(c, s, f) == Err(KeyError))
    ensures s.status == RUNNING ==> Errors(s) == Err(RuntimeError) && ResultOf(c, s, f) == Err(RuntimeError)
    ensures s.status == ERROR ==> Errors(s) == Err(RuntimeError)
    ensures !c.saveResults ==> ResultOf(c, s, f) == Err(RuntimeError)
  {
    EveryMoment(c, flows, events, s);
    Parts(c, Initial(c, flows), s);
    if s.status == DONE {
      forall j: nat
        ensures j in s.errors <==> j < |c.jobs| && !Succeeded(c, flows, events, j)
        ensures j in s.results <==> j < |c.jobs| && c.saveResults && Succeeded(c, flows, events, j)
      {
        ResultsExact(c, flows, events, s, j);
      }
      ErrorsOnce(c, s);
      MappedTo(c, s, f);
      hide Invariant, InOrder, Owned, Sorted, Reachable, Succeeded, Mapped;
      forall i: nat, j: nat | i < |c.jobs| && j < |c.jobs| && c.jobs[i].flow == f == c.jobs[j].flow
                              && Succeeded(c, flows, events, i) && Succeeded(c, flows, events, j)
        ensures i == j
      {
        OneSuccess(c, flows, events, i, j);
      }
    }
  }

  lemma OneSuccess(c: Config, flows: map<nat, Flow>, events: seq<Event>, i: nat, j: nat)
    requires i < |c.jobs| && j < |c.jobs| && c.jobs[i].flow == c.jobs[j].flow
    requires Succeeded(c, flows, events, i) && Succeeded(c, flows, events, j)
    ensures i == j
  {
    OneStarter(c, flows, events, i, j);
  }

  lemma ErrorsOnce(c: Config, s: State)
    requires Sorted(c, s)
    ensures |s.errors| <= |c.jobs|
  {
    FewErrors(s.errors, |c.jobs|);
  }

  lemma FewErrors(errors: seq<nat>, n: nat)
    requires FlowMachine.NoRepeats(errors) && forall j | j in errors :: j < n
    ensures |errors| <= n
  {
    ElementsCount(errors);
    SubsetCount(Elements(errors), Below(n));
  }

  lemma MappedTo(c: Config, s: State, f: nat)
    requires Sorted(c, s)
    ensures f in s.resultMap <==> exists j: nat :: j < |c.jobs| && j in s.results && c.jobs[j].flow == f
    ensures f in s.resultMap ==> s.resultMap[f] < |c.jobs| && s.resultMap[f] in s.results
                                 && c.jobs[s.resultMap[f]].flow == f
  {
  }

  /** Over every run: a scheduler that is done or has crashed has no job left on a worker or in the queue. */
  lemma {:induction false} NothingLeft(c: Config, flows: map<nat, Flow>, events: seq<Event>, s: State)
    requires c.maxWorkers >= 1 && forall i | 0 <= i < |c.jobs| :: c.jobs[i].flow in flows
    requires Reachable(c, Initial(c, flows), events, s)
    ensures Fits(c, s)
    ensures s.status == DONE || s.status == ERROR ==> forall j: nat | j < s.next :: s.phases[j].Finished?
    decreases |events|
  {
    EveryMoment(c, flows, events, s);
    Parts(c, Initial(c, flows), s);
    hide Invariant, Sorted, Owned, Next;
    if events != [] {
      var n := |events| - 1;
      var m :| Reachable(c, Initial(c, flows), events[..n], m) && Fits(c, m) && Next(c, m, events[n]) == Some(s);
      NothingLeft(c, flows, events[..n], m);
      EveryMoment(c, flows, events[..n], m);
      Parts(c, Initial(c, flows), m);
      CollectedEnded(c, m);
      EndStep(c, m, events[n]);
    }
  }

  lemma CollectedEnded(c: Config, s: State)
    requires Sorted(c, s)
    ensures forall j | j in s.collected :: j < |c.jobs| && s.phases[j].Finished?
  {
  }

  lemma EndStep(c: Config, m: State, e: Event)
    requires InOrder(c, m) && Next(c, m, e).Some?
    requires forall j | j in m.collected :: j < |c.jobs| && m.phases[j].Finished?
    requires m.status == DONE || m.status == ERROR ==> forall j: nat | j < m.next :: m.phases[j].Finished?
    ensures var s := Next(c, m, e).value;
            && (s.status == DONE || s.status == ERROR ==> forall j: nat | j < s.next :: s.phases[j].Finished?)
  {
  }

  // ---- Timeouts ----

  /** The time that passes in a run. */
  function Waited(events: seq<Event>): real {
    if events == [] then 0.0
    else Waited(events[..|events| - 1]) + match events[|events| - 1] case Wait(dt) => dt case _ => 0.0
  }

  ghost predicate StartedWhen(events: seq<Event>, j: nat, at: real) {
    exists a: nat :: a < |events| && events[a] == StartFlow(j) && Waited(events[..a]) == at
  }

  /** The clock shows the time that passed, and a worker that waits knows since when. */
  ghost predicate TimesTell(events: seq<Event>, s: State) {
    && s.clock == Waited(events)
    && forall j: nat | j < |s.phases| && s.phases[j].Joining? :: StartedWhen(events, j, s.phases[j].since)
  }

  lemma TimeStep(c: Config, m: State, e: Event)
    requires Fits(c, m) && Next(c, m, e).Some?
    ensures var s := Next(c, m, e).value;
            && s.clock == m.clock + (match e case Wait(dt) => dt case _ => 0.0) && |s.phases| == |m.phases|
            && forall j: nat | j < |s.phases| && s.phases[j].Joining? ::
                 s.phases[j] == m.phases[j] || (e == StartFlow(j) && s.phases[j].since == m.clock)
  {
  }

  lemma StartedWhenMore(events: seq<Event>, j: nat, at: real)
    requires events != []
    ensures StartedWhen(events[..|events| - 1], j, at) ==> StartedWhen(events, j, at)
    ensures events[|events| - 1] == StartFlow(j) && at == Waited(events[..|events| - 1]) ==> StartedWhen(events, j, at)
  {
    var n := |events| - 1;
    if StartedWhen(events[..n], j, at) {
      var a: nat :| a < n && events[..n][a] == StartFlow(j) && Waited(events[..n][..a]) == at;
      assert events[..n][..a] == events[..a] && events[a] == StartFlow(j);
    }
  }

  lemma {:induction false} TimesShown(c: Config, flows: map<nat, Flow>, events: seq<Event>, s: State)
    requires Reachable(c, Initial(c, flows), events, s)
    ensures TimesTell(events, s)
    decreases |events|
  {
    if events != [] {
      hide Next, StartedWhen;
      var n := |events| - 1;
      var m :| Reachable(c, Initial(c, flows), events[..n], m) && Fits(c, m) && Next(c, m, events[n]) == Some(s);
      TimesShown(c, flows, events[..n], m);
      TimeStep(c, m, events[n]);
      forall j: nat | j < |s.phases| && s.phases[j].Joining? ensures StartedWhen(events, j, s.phases[j].since) {
        StartedWhenMore(events, j, s.phases[j].since);
      }
    }
  }

  /** The worker gave the job up when its flow had run for the timeout. */
  ghost predicate TookTooLong(c: Config, events: seq<Event>, j: nat) {
    c.timeout.Some?
    && exists b: nat, start :: b < |events| && events[b] == TimeOut(j) && StartedWhen(events[..b], j, start)
                               && Waited(events[..b]) - start >= c.timeout.value
  }

  lemma TookLongMore(c: Config, events: seq<Event>, j: nat)
    requires events != [] && TookTooLong(c, events[..|events| - 1], j)
    ensures TookTooLong(c, events, j)
  {
    var n := |events| - 1;
    var b: nat, start :| b < n && events[..n][b] == TimeOut(j) && StartedWhen(events[..n][..b], j, start)
                         && Waited(events[..n][..b]) - start >= c.timeout.value;
    assert events[..n][..b] == events[..b] && events[b] == TimeOut(j);
  }

  /** Over every run: no job is given up before the timeout. */
  lemma {:induction false} LateIsLate(c: Config, flows: map<nat, Flow>, events: seq<Event>, s: State, j: nat)
    requires Reachable(c, Initial(c, flows), events, s) && TimeOut(j) in events
    ensures TookTooLong(c, events, j)
    decreases |events|
  {
    var n := |events| - 1;
    var m :| Reachable(c, Initial(c, flows), events[..n], m) && Fits(c, m) && Next(c, m, events[n]) == Some(s);
    OneMore(c, events);
    if TimeOut(j) in events[..n] {
      LateIsLate(c, flows, events[..n], m, j);
      TookLongMore(c, events, j);
    } else {
      TimesShown(c, flows, events[..n], m);
      GivenUpLate(c, m, j);
      assert StartedWhen(events[..n], j, m.phases[j].since);
    }
  }

  lemma GivenUpLate(c: Config, m: State, j: nat)
    requires Fits(c, m) && Next(c, m, TimeOut(j)).Some?
    ensures j < |m.phases| && m.phases[j].Joining? && c.timeout.Some?
    ensures m.clock - m.phases[j].since >= c.timeout.value
  {
  }
}

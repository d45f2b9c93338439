/** The scheduler never gets stuck: from every moment of every run it can still be done
    (satgonetem/traffic/flow_scheduler.py:66-117, 225-330). */
module FlowProgress {
  import opened Wrappers
  import opened Flows
  import opened FlowMachine

  /** How many steps a job is away from being collected, at most. */
  function Left(p: Phase, running: bool, collected: bool): nat {
    match p
    case Listed => 13
    case Queued => 9
    case Taken => 8
    case Counted => 7
    case Joining(_) => if running then 5 else 4
    case Leaving(_) => 3
    case Uncounted(_) => 2
    case Finished(_, _) => if collected then 0 else 1
  }

  function LeftOf(c: Config, s: State, j: nat): nat
    requires Fits(c, s) && j < |c.jobs|
  {
    Left(s.phases[j], FlowOf(c, s, j).status == Running, j in s.collected)
  }

  function Sum(c: Config, s: State, k: nat): nat
    requires Fits(c, s) && k <= |c.jobs|
  {
    if k == 0 then 0 else Sum(c, s, k - 1) + LeftOf(c, s, k - 1)
  }

  /** And the scheduler, of submitting the next one. */
  function ToSubmit(c: Config, s: State): nat
    requires Fits(c, s)
  {
    if s.next == |c.jobs| then 0
    else if s.deadline.None? then 3 else if s.deadline.value > s.clock then 2 else 1
  }

  function Distance(c: Config, s: State): nat
    requires Fits(c, s)
  {
    Sum(c, s, |c.jobs|) + ToSubmit(c, s)
  }

  /** No job is further away than before, and one is nearer by that much. */
  lemma {:induction false} Nearer(c: Config, s: State, s': State, j: nat, d: nat, k: nat)
    requires Fits(c, s) && Fits(c, s') && j < |c.jobs| && k <= |c.jobs|
    requires forall i: nat | i < |c.jobs| :: LeftOf(c, s', i) <= LeftOf(c, s, i)
    requires LeftOf(c, s', j) + d <= LeftOf(c, s, j)
    ensures Sum(c, s', k) + (if j < k then d else 0) <= Sum(c, s, k)
  {
    hide LeftOf, Fits;
    if k > 0 {
      Nearer(c, s, s', j, d, k - 1);
    }
  }

  lemma {:induction false} AsFar(c: Config, s: State, s': State, k: nat)
    requires Fits(c, s) && Fits(c, s') && k <= |c.jobs|
    requires forall i: nat | i < |c.jobs| :: LeftOf(c, s', i) == LeftOf(c, s, i)
    ensures Sum(c, s', k) == Sum(c, s, k)
  {
    if k > 0 {
      AsFar(c, s, s', k - 1);
    }
  }

  // ---- A step forward ----

  /** A step that brings the end nearer, and stays in a running scheduler. */
  predicate Forward(c: Config, s: State, e: Event) {
    && !e.Close? && Fits(c, s) && Next(c, s, e).Some?
    && Fits(c, Next(c, s, e).value) && Distance(c, Next(c, s, e).value) < Distance(c, s)
    && Next(c, s, e).value.status == RUNNING && !Next(c, s, e).value.failed
  }

  /** While there is a job to submit. */
  lemma SubmitsOn(c: Config, s: State) returns (e: Event)
    requires InOrder(c, s) && s.status == RUNNING && !s.failed && s.next < |c.jobs|
    ensures Forward(c, s, e)
  {
    if s.deadline.None? {
      e := Pop;
      AsFar(c, s, Next(c, s, e).value, |c.jobs|);
    } else if s.deadline.value > s.clock {
      e := Wait(s.deadline.value - s.clock);
      AsFar(c, s, Next(c, s, e).value, |c.jobs|);
    } else {
      e := Submit;
      assert s.phases[s.next].Listed?;
      Nearer(c, s, Next(c, s, e).value, s.next, 4, |c.jobs|);
    }
  }

  /** What the worker of a busy job does next. */
  function WorkOn(c: Config, s: State, j: nat): Event
    requires Fits(c, s) && j < |c.jobs| && Busy(s.phases[j])
  {
    match s.phases[j]
    case Taken => CountIn(j)
    case Counted => StartFlow(j)
    case Joining(_) => if FlowOf(c, s, j).status == Running then FlowEnds(c.jobs[j].flow, true) else Joined(j)
    case Leaving(_) => CountOut(j)
    case Uncounted(_) => Return(j)
  }

  lemma WorksOn(c: Config, start: State, s: State, j: nat)
    requires InOrder(c, s) && Owned(c, start, s) && s.status == RUNNING && !s.failed
    requires j < |c.jobs| && Busy(s.phases[j])
    ensures Forward(c, s, WorkOn(c, s, j))
  {
    WorkStep(c, start, s, j);
    var s' := Next(c, s, WorkOn(c, s, j)).value;
    hide InOrder, Owned, Next, LeftOf;
    Nearer(c, s, s', j, 1, |c.jobs|);
  }

  lemma WorkStep(c: Config, start: State, s: State, j: nat)
    requires InOrder(c, s) && Owned(c, start, s) && s.status == RUNNING && !s.failed
    requires j < |c.jobs| && Busy(s.phases[j])
    ensures Next(c, s, WorkOn(c, s, j)).Some?
    ensures var s' := Next(c, s, WorkOn(c, s, j)).value;
            && Fits(c, s') && ToSubmit(c, s') == ToSubmit(c, s) && s'.status == RUNNING && !s'.failed
            && (forall i: nat | i < |c.jobs| :: LeftOf(c, s', i) <= LeftOf(c, s, i))
            && LeftOf(c, s', j) + 1 <= LeftOf(c, s, j)
  {
    WorkChanges(c, s, j);
    var s' := Next(c, s, WorkOn(c, s, j)).value;
    InOrderFits(c, s);
    hide InOrder, Owned, Next, WorkOn, Owns, Busy;
    forall i: nat | i < |c.jobs| && i != j ensures LeftOf(c, s', i) <= LeftOf(c, s, i) {
      if FlowOf(c, s, j).status == Idle && c.jobs[i].flow == c.jobs[j].flow {
        NotJoining(c, start, s, i, j);
      }
    }
  }

  /** No job waits for a flow that was not started. */
  lemma NotJoining(c: Config, start: State, s: State, i: nat, j: nat)
    requires Owned(c, start, s) && i < |c.jobs| && j < |c.jobs| && c.jobs[i].flow == c.jobs[j].flow
    requires FlowOf(c, s, j).status == Idle
    ensures !s.phases[i].Joining?
  {
  }

  /** A worker's step moves its job, and no flow starts to run but the job's own, when it was idle. */
  lemma WorkChanges(c: Config, s: State, j: nat)
    requires Fits(c, s) && j < |c.jobs| && Busy(s.phases[j])
    ensures Next(c, s, WorkOn(c, s, j)).Some?
    ensures var s' := Next(c, s, WorkOn(c, s, j)).value;
            && s'.collected == s.collected && s'.next == s.next && s'.deadline == s.deadline && s'.clock == s.clock
            && s'.status == s.status && s'.failed == s.failed && Fits(c, s')
            && (forall i: nat | i < |c.jobs| && i != j :: s'.phases[i] == s.phases[i])
            && (forall f | f in s.flows && f in s'.flows && s'.flows[f].status == Running ::
                  s.flows[f].status == Running || (f == c.jobs[j].flow && FlowOf(c, s, j).status == Idle))
            && LeftOf(c, s', j) + 1 <= LeftOf(c, s, j)
  {
    match s.phases[j]
    case Counted => WorkStarts(c, s, j);
    case Joining(_) => WorkJoins(c, s, j);
    case Taken => hide Left;
      WorkPasses(c, s, j);
    case Leaving(_) => hide Left;
      WorkPasses(c, s, j);
    case Uncounted(_) => hide Left;
      WorkPasses(c, s, j);
  }

  lemma WorkStarts(c: Config, s: State, j: nat)
    requires Fits(c, s) && j < |c.jobs| && s.phases[j].Counted?
    ensures StartedFlow(c, s, j).Some?
    ensures var s' := StartedFlow(c, s, j).value;
            && s' == s.(phases := s'.phases, flows := s'.flows) && Fits(c, s')
            && (s'.phases == s.phases[j := Leaving(Refused)] || s'.phases == s.phases[j := Joining(s.clock)])
            && (forall f | f in s.flows && f in s'.flows && s'.flows[f].status == Running ::
                  s.flows[f].status == Running || (f == c.jobs[j].flow && FlowOf(c, s, j).status == Idle))
  {
  }

  lemma WorkJoins(c: Config, s: State, j: nat)
    requires Fits(c, s) && j < |c.jobs| && s.phases[j].Joining?
    ensures Next(c, s, WorkOn(c, s, j)).Some?
    ensures var s' := Next(c, s, WorkOn(c, s, j)).value;
            && s' == s.(phases := s'.phases, flows := s'.flows) && Fits(c, s')
            && (if FlowOf(c, s, j).status == Running then s'.phases == s.phases && FlowOf(c, s', j).status != Running
                else s'.phases == s.phases[j := Leaving(Came)] && s'.flows == s.flows)
            && (forall f | f in s.flows && f in s'.flows && s'.flows[f].status == Running ::
                  s.flows[f].status == Running)
  {
  }

  lemma WorkPasses(c: Config, s: State, j: nat)
    requires Fits(c, s) && j < |c.jobs| && (s.phases[j].Taken? || s.phases[j].Leaving? || s.phases[j].Uncounted?)
    ensures Next(c, s, WorkOn(c, s, j)).Some?
    ensures var s' := Next(c, s, WorkOn(c, s, j)).value;
            && s' == s.(phases := s'.phases, active := s'.active, completed := s'.completed) && Fits(c, s')
            && s'.phases == s.phases[j := s'.phases[j]]
            && LeftOf(c, s', j) + 1 <= LeftOf(c, s, j)
  {
  }

  /** A free pool takes the job that waits longest. */
  lemma TakesOn(c: Config, s: State, j: nat) returns (e: Event)
    requires InOrder(c, s) && s.status == RUNNING && !s.failed && c.maxWorkers >= 1
    requires j < |c.jobs| && s.phases[j].Queued? && forall i: nat | i < |c.jobs| :: !Busy(s.phases[i])
    ensures Forward(c, s, e)
  {
    var i := FirstQueued(s.phases, j);
    e := Take(i);
    assert BusyJobs(s.phases) == {};
    Nearer(c, s, Next(c, s, e).value, i, 1, |c.jobs|);
  }

  lemma {:induction false} FirstQueued(phases: seq<Phase>, j: nat) returns (i: nat)
    requires j < |phases| && phases[j].Queued?
    ensures i <= j && phases[i].Queued? && forall k | 0 <= k < i :: !phases[k].Queued?
  {
    if k: nat :| k < j && phases[k].Queued? {
      i := FirstQueued(phases, k);
    } else {
      i := j;
    }
  }

  lemma CollectsOn(c: Config, s: State, j: nat)
    requires InOrder(c, s) && s.status == RUNNING && !s.failed && s.next == |c.jobs|
    requires j < |c.jobs| && s.phases[j].Finished? && j !in s.collected
    ensures Forward(c, s, Collect(j))
  {
    Nearer(c, s, Next(c, s, Collect(j)).value, j, 1, |c.jobs|);
  }

  /** At every moment of a running scheduler there is a step forward, or it can be done at once. */
  lemma NeverStuck(c: Config, flows: map<nat, Flow>, events: seq<Event>, s: State) returns (e: Event)
    requires c.maxWorkers >= 1 && forall i | 0 <= i < |c.jobs| :: c.jobs[i].flow in flows
    requires Reachable(c, Initial(c, flows), events, s) && s.status == RUNNING && !s.failed
    ensures Fits(c, s)
    ensures if e.Close? then Next(c, s, e).Some? && Next(c, s, e).value.status == DONE else Forward(c, s, e)
  {
    EveryMoment(c, flows, events, s);
    assert InOrder(c, s) && Owned(c, Initial(c, flows), s);
    SubmittedAll(c, s);
    hide Invariant, Owned, Reachable, Forward, InOrder, Next;
    if s.next < |c.jobs| {
      e := SubmitsOn(c, s);
    } else if j: nat :| j < |c.jobs| && Busy(s.phases[j]) {
      e := WorkOn(c, s, j);
      WorksOn(c, Initial(c, flows), s, j);
    } else if j: nat :| j < |c.jobs| && s.phases[j].Queued? {
      e := TakesOn(c, s, j);
    } else if j: nat :| j < |c.jobs| && j !in s.collected {
      e := Collect(j);
      CollectsOn(c, s, j);
    } else {
      e := Close;
      ClosesNow(c, s);
    }
  }

  lemma SubmittedAll(c: Config, s: State)
    requires InOrder(c, s)
    ensures Fits(c, s) && (s.next >= |c.jobs| ==> forall j: nat | j < |c.jobs| :: !s.phases[j].Listed?)
  {
  }

  lemma ClosesNow(c: Config, s: State)
    requires Fits(c, s) && s.status == RUNNING && !s.failed && s.next == |c.jobs|
    requires forall j: nat | j < |c.jobs| :: j in s.collected
    ensures Next(c, s, Close).Some? && Next(c, s, Close).value.status == DONE
  {
  }

  /** So every run can be brought to an end, with a result or an error for every job. */
  lemma {:induction false} CanFinish(c: Config, flows: map<nat, Flow>, events: seq<Event>, s: State)
    returns (more: seq<Event>, done: State)
    requires c.maxWorkers >= 1 && forall i | 0 <= i < |c.jobs| :: c.jobs[i].flow in flows
    requires Reachable(c, Initial(c, flows), events, s) && Fits(c, s) && s.status == RUNNING && !s.failed
    ensures events <= more && Reachable(c, Initial(c, flows), more, done) && done.status == DONE
    decreases Distance(c, s)
  {
    var e := NeverStuck(c, flows, events, s);
    hide Next, Distance;
    var s' := Next(c, s, e).value;
    var longer := events + [e];
    assert longer[..|longer| - 1] == events;
    assert Reachable(c, Initial(c, flows), longer, s');
    if e.Close? {
      more, done := longer, s';
    } else {
      more, done := CanFinish(c, flows, longer, s');
    }
  }
}

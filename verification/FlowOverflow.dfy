/** When exactly "at most max_workers flows run at once" holds, and the run that breaks it otherwise
    (satgonetem/traffic/flow_scheduler.py:97-117, 120-137). */
module FlowOverflow {
  import opened Wrappers
  import opened Flows
  import opened FlowMachine

  /** The flows that are listed and not started yet. */
  function IdleListed(c: Config, flows: map<nat, Flow>, k: nat): set<nat>
    requires k <= |c.jobs|
  {
    set j | 0 <= j < k && c.jobs[j].flow in flows && flows[c.jobs[j].flow].status.Idle? :: c.jobs[j].flow
  }

  lemma Extend(c: Config, start: State, events: seq<Event>, s: State, e: Event, s': State)
    requires Reachable(c, start, events, s) && Fits(c, s) && Next(c, s, e) == Some(s')
    ensures Reachable(c, start, events + [e], s')
  {
    hide Next;
    assert (events + [e])[..|events|] == events;
  }

  // ---- First every job is submitted ----

  /** The scheduler has submitted k jobs and no worker has done anything. */
  ghost predicate Submitting(c: Config, flows: map<nat, Flow>, s: State, k: nat) {
    && Fits(c, s) && s.status == RUNNING && !s.failed && s.next == k && s.deadline.None? && s.flows == flows
    && forall j | 0 <= j < |c.jobs| :: s.phases[j] == if j < k then Queued else Listed
  }

  /** Sleeping until the flow's time and submitting it. */
  lemma PopAndSubmit(c: Config, flows: map<nat, Flow>, s: State, k: nat)
    returns (a: State, wait: real, b: State, d: State)
    requires k < |c.jobs| && Submitting(c, flows, s, k)
    ensures Next(c, s, Pop) == Some(a) && Fits(c, a) && Next(c, a, Wait(wait)) == Some(b) && Fits(c, b)
    ensures Next(c, b, Submit) == Some(d) && Submitting(c, flows, d, k + 1)
  {
    var time := s.t0 + FlowOf(c, s, k).delay;
    wait := if time > s.clock then time - s.clock else 0.0;
    a := s.(deadline := Some(time));
    b := a.(clock := a.clock + wait);
    d := b.(phases := b.phases[k := Queued], next := k + 1, deadline := None, submissions := b.submissions + [b.clock]);
  }

  lemma SubmitOne(c: Config, flows: map<nat, Flow>, events: seq<Event>, s: State, k: nat)
    returns (events': seq<Event>, s': State)
    requires k < |c.jobs| && Submitting(c, flows, s, k) && Reachable(c, Initial(c, flows), events, s)
    ensures Submitting(c, flows, s', k + 1) && Reachable(c, Initial(c, flows), events', s')
  {
    hide Next, Reachable;
    var start := Initial(c, flows);
    var a, wait, b, d := PopAndSubmit(c, flows, s, k);
    Extend(c, start, events, s, Pop, a);
    Extend(c, start, events + [Pop], a, Wait(wait), b);
    Extend(c, start, events + [Pop] + [Wait(wait)], b, Submit, d);
    events', s' := events + [Pop] + [Wait(wait)] + [Submit], d;
  }

  lemma {:induction false} SubmitAll(c: Config, flows: map<nat, Flow>, k: nat) returns (events: seq<Event>, s: State)
    requires k <= |c.jobs| && forall i | 0 <= i < |c.jobs| :: c.jobs[i].flow in flows
    ensures Submitting(c, flows, s, k) && Reachable(c, Initial(c, flows), events, s)
  {
    var start := Initial(c, flows);
    if k == 0 {
      assert Reachable(c, start, [], start);
      s := RunCalled(start);
      Extend(c, start, [], start, Run, s);
      events := [] + [Run];
    } else {
      events, s := SubmitAll(c, flows, k - 1);
      events, s := SubmitOne(c, flows, events, s, k - 1);
    }
  }

  // ---- Then every job's flow is started and left behind ----

  /** The workers are through with the first k jobs; every flow they started runs on. */
  ghost predicate LeftBehind(c: Config, flows: map<nat, Flow>, s: State, k: nat) {
    && Fits(c, s) && s.flows.Keys == flows.Keys && k <= |c.jobs|
    && (forall j | 0 <= j < |c.jobs| :: if j < k then s.phases[j].Finished? else s.phases[j].Queued?)
    && forall f | f in flows ::
         s.flows[f].status == if f in IdleListed(c, flows, k) then Running else flows[f].status
  }

  lemma NobodyBusy(c: Config, flows: map<nat, Flow>, s: State, k: nat)
    requires LeftBehind(c, flows, s, k)
    ensures BusyJobs(s.phases) == {}
  {
  }

  lemma IdleListedGrows(c: Config, flows: map<nat, Flow>, k: nat)
    requires k < |c.jobs| && c.jobs[k].flow in flows
    ensures var f := c.jobs[k].flow;
            IdleListed(c, flows, k + 1)
            == if flows[f].status.Idle? then IdleListed(c, flows, k) + {f} else IdleListed(c, flows, k)
  {
  }

  lemma Free(c: Config, s: State, k: nat)
    requires c.maxWorkers >= 1 && k < |c.jobs| && Fits(c, s) && BusyJobs(s.phases) == {} && s.phases[k].Queued?
    requires forall i | 0 <= i < k :: !s.phases[i].Queued?
    ensures TakenBy(c, s, k).Some?
  {
  }

  /** A job whose flow is idle is started. */
  lemma StartOne(c: Config, start: State, events: seq<Event>, s: State, k: nat)
    returns (events': seq<Event>, s': State)
    requires k < |c.jobs| && Fits(c, s) && Reachable(c, start, events, s)
    requires TakenBy(c, s, k).Some? && FlowOf(c, s, k).status.Idle?
    ensures Fits(c, s') && Reachable(c, start, events', s') && s'.clock == s.clock
    ensures s'.phases == s.phases[k := Joining(s.clock)] && s'.flows == s.flows[c.jobs[k].flow := Flow(Running, 0.0)]
  {
    hide Next, Reachable, TakenBy;
    var a, b, d := NextIn(c, s, k);
    Extend(c, start, events, s, Take(k), a);
    Extend(c, start, events + [Take(k)], a, CountIn(k), b);
    Extend(c, start, events + [Take(k)] + [CountIn(k)], b, StartFlow(k), d);
    events', s' := events + [Take(k)] + [CountIn(k)] + [StartFlow(k)], d;
  }

  lemma Overdue(c: Config, s: State, k: nat, t: real) returns (wait: real, a: State)
    requires c.timeout == Some(t) && k < |c.jobs| && Fits(c, s)
    requires s.phases[k] == Joining(s.clock) && FlowOf(c, s, k).status.Running?
    ensures Next(c, s, Wait(wait)) == Some(a) && Fits(c, a) && JoinEnded(c, a, k, true).Some?
    ensures a.phases == s.phases && a.flows == s.flows
  {
    wait := if t > 0.0 then t else 0.0;
    a := s.(clock := s.clock + wait);
  }

  /** The join of a running flow times out, and the worker leaves it. */
  lemma LeaveOne(c: Config, start: State, events: seq<Event>, s: State, k: nat, t: real)
    returns (events': seq<Event>, s': State)
    requires c.timeout == Some(t) && k < |c.jobs| && Fits(c, s) && Reachable(c, start, events, s)
    requires s.phases[k] == Joining(s.clock) && FlowOf(c, s, k).status.Running?
    ensures Fits(c, s') && Reachable(c, start, events', s')
    ensures s'.phases == s.phases[k := Finished(Late, false)] && s'.flows == s.flows
  {
    hide Next, Reachable, JoinEnded;
    var wait, a := Overdue(c, s, k, t);
    var b, d, e := LateOut(c, a, k);
    Extend(c, start, events, s, Wait(wait), a);
    Extend(c, start, events + [Wait(wait)], a, TimeOut(k), b);
    Extend(c, start, events + [Wait(wait)] + [TimeOut(k)], b, CountOut(k), d);
    Extend(c, start, events + [Wait(wait)] + [TimeOut(k)] + [CountOut(k)], d, Return(k), e);
    events', s' := events + [Wait(wait)] + [TimeOut(k)] + [CountOut(k)] + [Return(k)], e;
  }

  /** The steps of a worker whose flow was started before. */
  lemma Refusal(c: Config, s: State, k: nat) returns (a: State, b: State, d: State, e: State, f: State)
    requires k < |c.jobs| && Fits(c, s) && TakenBy(c, s, k).Some? && !FlowOf(c, s, k).status.Idle?
    ensures Next(c, s, Take(k)) == Some(a) && Fits(c, a) && Next(c, a, CountIn(k)) == Some(b) && Fits(c, b)
    ensures Next(c, b, StartFlow(k)) == Some(d) && Fits(c, d) && Next(c, d, CountOut(k)) == Some(e) && Fits(c, e)
    ensures Next(c, e, Return(k)) == Some(f) && Fits(c, f) && f.phases == s.phases[k := Finished(Refused, false)]
    ensures f.flows == s.flows[c.jobs[k].flow := FlowOf(c, s, k).(delay := 0.0)]
  {
    a, b, d := RefusedStart(c, s, k);
    e := Next(c, d, CountOut(k)).value;
    f := Next(c, e, Return(k)).value;
    assert f.phases == s.phases[k := Finished(Refused, false)];
  }

  lemma RefusedStart(c: Config, s: State, k: nat) returns (a: State, b: State, d: State)
    requires k < |c.jobs| && Fits(c, s) && TakenBy(c, s, k).Some? && !FlowOf(c, s, k).status.Idle?
    ensures Next(c, s, Take(k)) == Some(a) && Fits(c, a) && Next(c, a, CountIn(k)) == Some(b) && Fits(c, b)
    ensures Next(c, b, StartFlow(k)) == Some(d) && Fits(c, d) && d.phases == s.phases[k := Leaving(Refused)]
    ensures d.flows == s.flows[c.jobs[k].flow := FlowOf(c, s, k).(delay := 0.0)]
  {
    a := Next(c, s, Take(k)).value;
    b := Next(c, a, CountIn(k)).value;
    d := Next(c, b, StartFlow(k)).value;
  }

  lemma RefuseOne(c: Config, start: State, events: seq<Event>, s: State, k: nat)
    returns (events': seq<Event>, s': State)
    requires k < |c.jobs| && Fits(c, s) && Reachable(c, start, events, s)
    requires TakenBy(c, s, k).Some? && !FlowOf(c, s, k).status.Idle?
    ensures Fits(c, s') && Reachable(c, start, events', s') && s'.phases == s.phases[k := Finished(Refused, false)]
    ensures s'.flows == s.flows[c.jobs[k].flow := FlowOf(c, s, k).(delay := 0.0)]
  {
    hide Next, Reachable, TakenBy;
    var a, b, d, e, f := Refusal(c, s, k);
    Extend(c, start, events, s, Take(k), a);
    Extend(c, start, events + [Take(k)], a, CountIn(k), b);
    Extend(c, start, events + [Take(k)] + [CountIn(k)], b, StartFlow(k), d);
    var es := events + [Take(k)] + [CountIn(k)] + [StartFlow(k)];
    Extend(c, start, es, d, CountOut(k), e);
    Extend(c, start, es + [CountOut(k)], e, Return(k), f);
    events', s' := es + [CountOut(k)] + [Return(k)], f;
  }

  lemma OneBehind(c: Config, flows: map<nat, Flow>, s: State, s': State, k: nat)
    requires k < |c.jobs| && c.jobs[k].flow in flows && LeftBehind(c, flows, s, k) && Fits(c, s')
    requires s'.phases == s.phases[k := s'.phases[k]] && s'.phases[k].Finished?
    requires s'.flows.Keys == s.flows.Keys
    requires forall f | f in s.flows ::
               s'.flows[f].status
               == if f == c.jobs[k].flow && s.flows[f].status.Idle? then Running else s.flows[f].status
    ensures LeftBehind(c, flows, s', k + 1)
  {
    IdleListedGrows(c, flows, k);
    hide IdleListed;
  }

  lemma LeaveNext(c: Config, flows: map<nat, Flow>, events: seq<Event>, s: State, t: real, k: nat)
    returns (events': seq<Event>, s': State)
    requires c.timeout == Some(t) && c.maxWorkers >= 1 && k < |c.jobs| && c.jobs[k].flow in flows
    requires LeftBehind(c, flows, s, k) && Reachable(c, Initial(c, flows), events, s)
    ensures LeftBehind(c, flows, s', k + 1) && Reachable(c, Initial(c, flows), events', s')
  {
    hide Reachable, TakenBy, IdleListed, BusyJobs;
    var start := Initial(c, flows);
    NobodyBusy(c, flows, s, k);
    Free(c, s, k);
    if FlowOf(c, s, k).status.Idle? {
      events', s' := StartOne(c, start, events, s, k);
      events', s' := LeaveOne(c, start, events', s', k, t);
    } else {
      events', s' := RefuseOne(c, start, events, s, k);
    }
    OneBehind(c, flows, s, s', k);
  }

  lemma {:induction false} LeaveAll(c: Config, flows: map<nat, Flow>, t: real, k: nat)
    returns (events: seq<Event>, s: State)
    requires c.timeout == Some(t) && c.maxWorkers >= 1 && k <= |c.jobs|
    requires forall i | 0 <= i < |c.jobs| :: c.jobs[i].flow in flows
    ensures LeftBehind(c, flows, s, k) && Reachable(c, Initial(c, flows), events, s)
  {
    if k == 0 {
      events, s := SubmitAll(c, flows, |c.jobs|);
    } else {
      hide Reachable, LeftBehind;
      events, s := LeaveAll(c, flows, t, k - 1);
      events, s := LeaveNext(c, flows, events, s, t, k - 1);
    }
  }

  // ---- The exact condition ----

  /** At every moment of every run at most the allowed number of flows run. */
  ghost predicate NeverExceeded(c: Config, flows: map<nat, Flow>) {
    forall events, s | Reachable(c, Initial(c, flows), events, s) :: |LiveFlows(Initial(c, flows), s)| <= c.maxWorkers
  }

  lemma OnlyListedRun(c: Config, flows: map<nat, Flow>, s: State)
    requires Owned(c, Initial(c, flows), s)
    ensures LiveFlows(Initial(c, flows), s) <= IdleListed(c, flows, |c.jobs|)
  {
    forall f | f in LiveFlows(Initial(c, flows), s) ensures f in IdleListed(c, flows, |c.jobs|) {
      var j :| 0 <= j < |c.jobs| && c.jobs[j].flow == f && Owns(s.phases[j]);
    }
  }

  /** The pool bounds the flows that run exactly when there is no timeout or there are no more flows to start
      than workers. */
  lemma PoolBoundExact(c: Config, flows: map<nat, Flow>)
    requires c.maxWorkers >= 1 && forall i | 0 <= i < |c.jobs| :: c.jobs[i].flow in flows
    ensures NeverExceeded(c, flows) <==> c.timeout.None? || |IdleListed(c, flows, |c.jobs|)| <= c.maxWorkers
  {
    var start, idle := Initial(c, flows), IdleListed(c, flows, |c.jobs|);
    hide Reachable, Invariant, LiveFlows, IdleListed;
    if c.timeout.None? || |idle| <= c.maxWorkers {
      forall events, s | Reachable(c, start, events, s) ensures |LiveFlows(start, s)| <= c.maxWorkers {
        EveryMoment(c, flows, events, s);
        LiveFlowsBounded(c, start, s);
        InvariantOwned(c, start, s);
        OnlyListedRun(c, flows, s);
        SubsetCount(LiveFlows(start, s), idle);
      }
    } else {
      var events, s := LeaveAll(c, flows, c.timeout.value, |c.jobs|);
      AllRun(c, flows, s);
      assert Reachable(c, start, events, s) && |LiveFlows(start, s)| > c.maxWorkers;
    }
  }

  lemma InvariantOwned(c: Config, start: State, s: State)
    requires Invariant(c, start, s)
    ensures Owned(c, start, s)
  {
  }

  lemma AllRun(c: Config, flows: map<nat, Flow>, s: State)
    requires LeftBehind(c, flows, s, |c.jobs|)
    ensures LiveFlows(Initial(c, flows), s) == IdleListed(c, flows, |c.jobs|)
  {
  }

  /** The smallest case: one worker, two flows, a timeout. */
  lemma TwoFlowsOneWorker(f: Flow, g: Flow, t: real)
    requires f.status.Idle? && g.status.Idle?
    ensures var c := Config([Job(0, "a"), Job(1, "b")], 1, false, Some(t), true);
            !NeverExceeded(c, map[0 := f, 1 := g])
  {
    var c, flows := Config([Job(0, "a"), Job(1, "b")], 1, false, Some(t), true), map[0 := f, 1 := g];
    assert c.jobs[0].flow == 0 && c.jobs[1].flow == 1;
    assert IdleListed(c, flows, 2) == {0, 1};
    PoolBoundExact(c, flows);
  }
}

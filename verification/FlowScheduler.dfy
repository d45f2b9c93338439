/** One flow and its own thread (satgonetem/traffic/ping_utils.py:219-360). */
module Flows {
  import opened Wrappers

  datatype FlowStatus = Idle | Running | Done | Failed

  /** What the threads of a flow do to its status, one locked section each. */
  function Started(s: FlowStatus): Option<FlowStatus> {
    if s.Idle? then Some(Running) else None
  }

  function Ended(s: FlowStatus, ok: bool): FlowStatus {
    if s.Running? then (if ok then Done else Failed) else s
  }

  class PingFlow<R(0)> {
    var status: FlowStatus
    var result: Option<R>
    var error: bool
    var delay: real

    constructor (delay: real)
      ensures Valid() && status == Idle && this.delay == delay
    {
      status, result, error, this.delay := Idle, None, false, delay;
    }

    /** A result is there exactly when the flow is done, an error exactly when it failed. */
    predicate Valid()
      reads this
    {
      (result.Some? <==> status == Done) && (error <==> status == Failed)
    }

    method Start() returns (refused: bool)
      requires Valid()
      modifies this`status
      ensures refused == (old(status) != Idle)
      ensures status == if refused then old(status) else Running
      ensures Valid()
    {
      if status != Idle {
        return true;
      }
      status := Running;
      return false;
    }

    /** The body of the thread; no output makes the flow fail. */
    method Run(output: Option<R>)
      requires Valid() && status == Running
      modifies this`status, this`result, this`error
      ensures Valid() && status == Ended(Running, output.Some?) && result == output
    {
      if output.Some? {
        result, status := output, Done;
      } else {
        error, status := true, Failed;
      }
    }

    method Results() returns (r: Result<R>)
      requires Valid()
      ensures r.Ok? <==> status == Done
      ensures r == if result.Some? then Ok(result.value) else Err(RuntimeError)
    {
      match status {
        case Done => return Ok(result.value);
        case _ => return Err(RuntimeError);
      }
    }
  }
}

/** The scheduler thread, its pool and the flows' own threads as one machine of atomic steps, in any order
    (satgonetem/traffic/flow_scheduler.py:54-330). */
module FlowMachine {
  import opened Wrappers
  import opened Flows

  /** One entry of the list; an object may be listed twice. */
  datatype Job = Job(flow: nat, name: string)

  datatype Config = Config(jobs: seq<Job>, maxWorkers: nat, debug: bool, timeout: Option<real>, saveResults: bool)

  datatype Status = IDLE | RUNNING | DONE | ERROR

  /** Why a worker left a flow: the flow came to an end, it had been started before, or it took too long. */
  datatype Exit = Came | Refused | Late

  /** How far a job is; from Taken to Leaving a worker is on it. */
  datatype Phase = Listed | Queued | Taken | Counted | Joining(since: real)
                 | Leaving(exit: Exit) | Uncounted(exit: Exit) | Finished(exit: Exit, ok: bool)

  datatype Flow = Flow(status: FlowStatus, delay: real)

  datatype State = State(status: Status, clock: real, t0: real, next: nat, deadline: Option<real>, failed: bool,
                         phases: seq<Phase>, flows: map<nat, Flow>, active: map<string, nat>, completed: nat,
                         collected: set<nat>, results: seq<nat>, resultMap: map<nat, nat>, errors: seq<nat>,
                         submissions: seq<real>)

  datatype Event = Run | Wait(dt: real) | Pop | Submit | Crash | Take(j: nat) | CountIn(j: nat) | StartFlow(j: nat)
                 | FlowEnds(f: nat, ok: bool) | Joined(j: nat) | TimeOut(j: nat) | CountOut(j: nat) | Return(j: nat)
                 | Collect(j: nat) | Close

  function Increment(active: map<string, nat>, name: string): map<string, nat> {
    active[name := (if name in active then active[name] else 0) + 1]
  }

  function Decrement(active: map<string, nat>, name: string): map<string, nat> {
    var count := if name in active then active[name] else 0;
    if count <= 1 then active - {name} else active[name := count - 1]
  }

  predicate Busy(p: Phase) {
    p.Taken? || p.Counted? || p.Joining? || p.Leaving? || p.Uncounted?
  }

  predicate InFlow(p: Phase) {
    p.Counted? || p.Joining? || p.Leaving?
  }

  function BusyJobs(phases: seq<Phase>): set<nat> {
    set j: nat | j < |phases| && Busy(phases[j])
  }

  /** The jobs of a label whose worker is between the two callbacks. */
  function JobsInFlow(jobs: seq<Job>, phases: seq<Phase>, name: string): set<nat>
    requires |phases| == |jobs|
  {
    set j: nat | j < |jobs| && InFlow(phases[j]) && jobs[j].name == name
  }

  predicate Behind(p: Phase) {
    p.Uncounted? || p.Finished?
  }

  /** The jobs whose end was counted. */
  function JobsBehind(phases: seq<Phase>): set<nat> {
    set j: nat | j < |phases| && Behind(phases[j])
  }

  function Initial(c: Config, flows: map<nat, Flow>): State {
    State(IDLE, 0.0, 0.0, 0, None, false, seq(|c.jobs|, _ => Listed), flows, map[], 0, {}, [], map[], [], [])
  }

  predicate Fits(c: Config, s: State) {
    |s.phases| == |c.jobs| && s.next <= |c.jobs| && forall i | 0 <= i < |c.jobs| :: c.jobs[i].flow in s.flows
  }

  function FlowOf(c: Config, s: State, j: nat): Flow
    requires Fits(c, s) && j < |c.jobs|
  {
    s.flows[c.jobs[j].flow]
  }

  // ---- The scheduler's own steps ----

  /** run(): refused when it was called before. */
  function RunCalled(s: State): State {
    if s.status != IDLE then s
    else s.(status := RUNNING, t0 := s.clock, errors := [], results := [], resultMap := map[], completed := 0,
        active := map[])
  }

  /** Taking the next flow off the deque fixes until when to sleep. */
  function Popped(c: Config, s: State): Option<State>
    requires Fits(c, s)
  {
    if s.status == RUNNING && !s.failed && s.deadline.None? && s.next < |c.jobs|
    then Some(s.(deadline := Some(s.t0 + FlowOf(c, s, s.next).delay))) else None
  }

  function Submitted(c: Config, s: State): Option<State>
    requires Fits(c, s)
  {
    if s.status == RUNNING && !s.failed && s.deadline.Some? && s.deadline.value <= s.clock && s.next < |c.jobs|
    then Some(s.(phases := s.phases[s.next := Queued], next := s.next + 1, deadline := None,
        submissions := s.submissions + [s.clock]))
    else None
  }

  /** One turn of the as_completed loop. */
  function Collected(c: Config, s: State, j: nat): Option<State>
    requires Fits(c, s)
  {
    if s.status == RUNNING && !s.failed && s.next == |c.jobs| && j < |c.jobs| && s.phases[j].Finished?
        && j !in s.collected then
      var s' := s.(collected := s.collected + {j});
      Some(if !s.phases[j].ok then s'.(errors := s.errors + [j])
           else if c.saveResults then s'.(results := s.results + [j], resultMap := s.resultMap[c.jobs[j].flow := j])
           else s')
    else None
  }

  /** Leaving the pool waits for every submitted job. */
  function Closed(c: Config, s: State): Option<State>
    requires Fits(c, s)
  {
    if s.status != RUNNING then None
    else if s.failed then
      if forall j | 0 <= j < s.next :: s.phases[j].Finished? then Some(s.(status := ERROR)) else None
    else if s.next == |c.jobs| && forall j: nat | j < |c.jobs| :: j in s.collected then Some(s.(status := DONE))
    else None
  }

  // ---- A worker's steps on one job ----

  /** A free worker takes the oldest queued job. */
  function TakenBy(c: Config, s: State, j: nat): Option<State>
    requires Fits(c, s) && j < |c.jobs|
  {
    if s.phases[j].Queued? && (forall i | 0 <= i < j :: !s.phases[i].Queued?) && |BusyJobs(s.phases)| < c.maxWorkers
    then Some(s.(phases := s.phases[j := Taken])) else None
  }

  function CountedIn(c: Config, s: State, j: nat): Option<State>
    requires Fits(c, s) && j < |c.jobs|
  {
    if s.phases[j].Taken?
    then Some(s.(phases := s.phases[j := Counted], active := if c.debug then Increment(s.active,
        c.jobs[j].name) else s.active))
    else None
  }

  /** The flow's delay is zeroed whether or not it can be started. */
  function StartedFlow(c: Config, s: State, j: nat): Option<State>
    requires Fits(c, s) && j < |c.jobs|
  {
    if !s.phases[j].Counted? then None
    else
      var f, status := c.jobs[j].flow, Started(FlowOf(c, s, j).status);
      Some(if status.None? then s.(phases := s.phases[j := Leaving(Refused)],
          flows := s.flows[f := s.flows[f].(delay := 0.0)])
           else s.(phases := s.phases[j := Joining(s.clock)], flows := s.flows[f := Flow(status.value, 0.0)]))
  }

  /** The join came back: the flow's thread has ended, or the time is over and the thread is still alive, which it
      may be for a moment after the flow has a status of its own. */
  function JoinEnded(c: Config, s: State, j: nat, late: bool): Option<State>
    requires Fits(c, s) && j < |c.jobs|
  {
    if !s.phases[j].Joining? || (!late && FlowOf(c, s, j).status.Running?) then None
    else if late && (c.timeout.None? || s.clock < s.phases[j].since + c.timeout.value) then None
    else Some(s.(phases := s.phases[j := Leaving(if late then Late else Came)]))
  }

  function CountedOut(c: Config, s: State, j: nat): Option<State>
    requires Fits(c, s) && j < |c.jobs|
  {
    if !s.phases[j].Leaving? then None
    else
      var s' := s.(phases := s.phases[j := Uncounted(s.phases[j].exit)]);
      Some(if c.debug then s'.(completed := s.completed + 1, active := Decrement(s.active, c.jobs[j].name)) else s')
  }

  /** The future gets a result if the flow came to a good end. */
  function Returned(c: Config, s: State, j: nat): Option<State>
    requires Fits(c, s) && j < |c.jobs|
  {
    if !s.phases[j].Uncounted? then None
    else
      var exit := s.phases[j].exit;
      Some(s.(phases := s.phases[j := Finished(exit, exit.Came? && FlowOf(c, s, j).status.Done?)]))
  }

  /** One atomic step of one thread; None if it cannot happen now. */
  function Next(c: Config, s: State, e: Event): (s': Option<State>)
    requires Fits(c, s)
    ensures s'.Some? ==> Fits(c, s'.value) && s'.value.flows.Keys == s.flows.Keys
  {
    match e
    case Run => Some(RunCalled(s))
    case Wait(dt) => if dt >= 0.0 then Some(s.(clock := s.clock + dt)) else None
    case Pop => Popped(c, s)
    case Submit => Submitted(c, s)
    case Crash => if s.status == RUNNING then Some(s.(failed := true)) else None
    case Collect(j) => Collected(c, s, j)
    case Close => Closed(c, s)
    case FlowEnds(f, ok) =>
      if f in s.flows && s.flows[f].status.Running?
      then Some(s.(flows := s.flows[f := s.flows[f].(status := Ended(Running, ok))])) else None
    case Take(j) => if j < |c.jobs| then TakenBy(c, s, j) else None
    case CountIn(j) => if j < |c.jobs| then CountedIn(c, s, j) else None
    case StartFlow(j) => if j < |c.jobs| then StartedFlow(c, s, j) else None
    case Joined(j) => if j < |c.jobs| then JoinEnded(c, s, j, false) else None
    case TimeOut(j) => if j < |c.jobs| then JoinEnded(c, s, j, true) else None
    case CountOut(j) => if j < |c.jobs| then CountedOut(c, s, j) else None
    case Return(j) => if j < |c.jobs| then Returned(c, s, j) else None
  }

  /** Any interleaving of steps. */
  ghost predicate Reachable(c: Config, start: State, events: seq<Event>, s: State)
    decreases |events|
  {
    if events == [] then s == start && Fits(c, start)
    else
      exists m :: && Reachable(c, start, events[..|events| - 1], m)
                  && Fits(c, m) && Next(c, m, events[|events| - 1]) == Some(s)
  }

  // ---- What holds at every moment ----

  /** The scheduler has submitted the first jobs of its list, in order. */
  ghost predicate InOrder(c: Config, s: State) {
    && Fits(c, s)
    && (forall j | 0 <= j < |c.jobs| :: s.phases[j].Listed? <==> j >= s.next)
    && (s.deadline.Some? ==> s.next < |c.jobs|)
    && |s.submissions| == s.next
    && (forall i, j | 0 <= i < j < s.next :: s.submissions[i] <= s.submissions[j])
    && (forall i | 0 <= i < s.next :: s.submissions[i] <= s.clock)
    && (s.status == IDLE ==> s.next == 0 && s.deadline.None? && !s.failed)
    && (s.status == DONE ==> s.next == |c.jobs| && !s.failed)
  }

  /** No more workers than allowed, and jobs leave the queue in order. */
  ghost predicate PoolBounded(c: Config, s: State) {
    && |BusyJobs(s.phases)| <= c.maxWorkers
    && forall i, j | 0 <= i < j < |s.phases| :: s.phases[i].Queued? ==> s.phases[j].Listed? || s.phases[j].Queued?
  }

  /** The counts are the multiset of labels of the flows in progress, and the number of those behind. */
  ghost predicate CountsExact(c: Config, s: State) {
    && Fits(c, s)
    && if c.debug
       then s.completed == |JobsBehind(s.phases)|
           && forall name :: CountIs(s.active, name, JobsInFlow(c.jobs, s.phases, name))
       else s.completed == 0 && s.active == map[]
  }

  ghost predicate CountIs(active: map<string, nat>, name: string, jobs: set<nat>) {
    (name in active <==> jobs != {}) && (name in active ==> active[name] == |jobs|)
  }

  predicate NoRepeats(s: seq<nat>) {
    forall i, j | 0 <= i < j < |s| :: s[i] != s[j]
  }

  /** The result map has the flows of the listed results, each with one of its own jobs. */
  ghost predicate Mapped(c: Config, results: seq<nat>, resultMap: map<nat, nat>) {
    && (forall j | j in results :: j < |c.jobs| && c.jobs[j].flow in resultMap)
    && (forall f | f in resultMap ::
          resultMap[f] in results && resultMap[f] < |c.jobs| && c.jobs[resultMap[f]].flow == f)
  }

  /** Every collected job is in one of the two lists, once. */
  ghost predicate Sorted(c: Config, s: State) {
    && Fits(c, s)
    && (forall j | j in s.collected :: j < |c.jobs| && s.phases[j].Finished?)
    && NoRepeats(s.results) && NoRepeats(s.errors)
    && (forall j :: j in s.results <==> j in s.collected && s.phases[j].ok && c.saveResults)
    && (forall j :: j in s.errors <==> j in s.collected && !s.phases[j].ok)
    && Mapped(c, s.results, s.resultMap)
    && (s.status == IDLE ==> s.collected == {} && s.results == [] && s.errors == [] && s.resultMap == map[])
    && (s.status == DONE ==> forall j: nat | j < |c.jobs| :: j in s.collected)
  }

  /** This job is the one that started its flow. */
  predicate Owns(p: Phase) {
    p.Joining? || ((p.Leaving? || p.Uncounted? || p.Finished?) && !p.exit.Refused?)
  }

  /** A flow is started by one job at most; it runs only as long as its job waits for it, or on after a
      timeout; only a flow that is done has a result. */
  ghost predicate Owned(c: Config, start: State, s: State) {
    && Fits(c, s) && s.flows.Keys == start.flows.Keys
    && (forall f | f in s.flows && !start.flows[f].status.Idle? :: !s.flows[f].status.Idle?)
    && (forall i, j | 0 <= i < j < |c.jobs| && Owns(s.phases[i]) && Owns(s.phases[j]) ::
          c.jobs[i].flow != c.jobs[j].flow)
    && (forall j | 0 <= j < |c.jobs| && Owns(s.phases[j]) ::
          start.flows[c.jobs[j].flow].status.Idle? && !s.flows[c.jobs[j].flow].status.Idle?)
    && (forall j | 0 <= j < |c.jobs| && Owns(s.phases[j]) && !s.phases[j].Joining? && s.phases[j].exit.Came? ::
          !s.flows[c.jobs[j].flow].status.Running?)
    && (forall j | 0 <= j < |c.jobs| && s.phases[j].Finished? && s.phases[j].ok ::
          s.phases[j].exit.Came? && s.flows[c.jobs[j].flow].status.Done?)
    && (forall f | f in s.flows && start.flows[f].status.Idle? && !s.flows[f].status.Idle? ::
          exists j :: 0 <= j < |c.jobs| && c.jobs[j].flow == f && Owns(s.phases[j]))
    && (c.timeout.None? ==> forall j | 0 <= j < |c.jobs| && Owns(s.phases[j])
        && !s.phases[j].Joining? :: s.phases[j].exit.Came?)
  }

  predicate DistinctFlows(c: Config) {
    forall i, j | 0 <= i < j < |c.jobs| :: c.jobs[i].flow != c.jobs[j].flow
  }

  /** The job's flow was submitted before with another job. */
  ghost predicate Earlier(c: Config, next: nat, j: nat)
    requires next <= |c.jobs| && j < |c.jobs|
  {
    exists i :: 0 <= i < next && c.jobs[i].flow == c.jobs[j].flow
  }

  /** No job is submitted before its flow's delay has passed. A delay changes only once the flow was submitted. */
  ghost predicate OnTime(c: Config, start: State, s: State) {
    && InOrder(c, s) && Fits(c, start)
    && (forall j | s.next <= j < |c.jobs| ::
          FlowOf(c, s, j).delay == FlowOf(c, start, j).delay || Earlier(c, s.next, j))
    && (s.deadline.Some? ==>
          s.deadline.value == s.t0 + FlowOf(c, start, s.next).delay || Earlier(c, s.next, s.next))
    && (forall j | 0 <= j < s.next :: s.submissions[j] >= s.t0 + FlowOf(c, start, j).delay)
  }

  // ---- Every step keeps it ----

  lemma InOrderKept(c: Config, s: State, e: Event)
    requires InOrder(c, s) && Next(c, s, e).Some?
    ensures InOrder(c, Next(c, s, e).value)
  {
    var s' := Next(c, s, e).value;
    if WorkerStep(e) {
      WorkerOrder(c, s, e);
    } else if e.Submit? {
    } else {
      assert s'.phases == s.phases && s'.next == s.next && s'.submissions == s.submissions && s'.clock >= s.clock;
    }
  }

  lemma WorkerOrder(c: Config, s: State, e: Event)
    requires Fits(c, s) && Next(c, s, e).Some? && WorkerStep(e)
    ensures var s', j := Next(c, s, e).value, Subject(s, e);
            && j < |c.jobs| && s'.phases == s.phases[j := s'.phases[j]] && !s.phases[j].Listed? && !s'.phases[j].Listed?
            && s'.next == s.next && s'.deadline == s.deadline && s'.submissions == s.submissions && s'.clock == s.clock
            && s'.status == s.status && s'.failed == s.failed
  {
  }

  lemma BusyUpdate(phases: seq<Phase>, j: nat, p: Phase)
    requires j < |phases|
    ensures BusyJobs(phases[j := p]) == if Busy(p) then BusyJobs(phases) + {j} else BusyJobs(phases) - {j}
    ensures JobsBehind(phases[j := p]) == if Behind(p) then JobsBehind(phases) + {j} else JobsBehind(phases) - {j}
  {
  }

  lemma InFlowUpdate(jobs: seq<Job>, phases: seq<Phase>, j: nat, p: Phase, name: string)
    requires j < |phases| == |jobs|
    ensures JobsInFlow(jobs, phases[j := p], name)
            == if InFlow(p) && jobs[j].name == name then JobsInFlow(jobs, phases, name) + {j}
               else JobsInFlow(jobs, phases, name) - {j}
  {
  }

  lemma PoolKept(c: Config, s: State, e: Event)
    requires InOrder(c, s) && PoolBounded(c, s) && Next(c, s, e).Some?
    ensures PoolBounded(c, Next(c, s, e).value)
  {
    var s' := Next(c, s, e).value;
    if WorkerStep(e) {
      WorkerPool(c, s, e);
    } else if e.Submit? {
      BusyUpdate(s.phases, s.next, Queued);
    } else {
      assert s'.phases == s.phases;
    }
  }

  /** A worker takes a job only while there is room, and the first one that waits. */
  lemma WorkerBusy(c: Config, s: State, e: Event)
    requires Fits(c, s) && Next(c, s, e).Some? && WorkerStep(e)
    ensures var s', j := Next(c, s, e).value, Subject(s, e);
            && j < |c.jobs| == |s.phases| == |s'.phases| && !s'.phases[j].Queued?
            && (Busy(s'.phases[j]) && !Busy(s.phases[j]) ==> |BusyJobs(s.phases)| < c.maxWorkers)
            && (s.phases[j].Queued? ==> forall i | 0 <= i < j :: !s.phases[i].Queued?)
  {
  }

  lemma AtMostOneMore(a: set<nat>, j: nat)
    ensures |a + {j}| <= |a| + 1 && (j in a ==> a + {j} == a) && |a - {j}| <= |a|
  {
    if j in a {
      assert a + {j} == a && a == (a - {j}) + {j};
    } else {
      assert a - {j} == a;
    }
  }

  lemma WorkerPool(c: Config, s: State, e: Event)
    requires Fits(c, s) && PoolBounded(c, s) && Next(c, s, e).Some? && WorkerStep(e)
    ensures PoolBounded(c, Next(c, s, e).value)
  {
    hide Next, Busy;
    var s', j := Next(c, s, e).value, Subject(s, e);
    WorkerOrder(c, s, e);
    WorkerBusy(c, s, e);
    BusyUpdate(s.phases, j, s'.phases[j]);
    AtMostOneMore(BusyJobs(s.phases), j);
  }

  /** The job whose phase a step changes. */
  function Subject(s: State, e: Event): nat {
    match e
    case Submit => s.next
    case Take(j) => j case CountIn(j) => j case StartFlow(j) => j case Joined(j) => j case TimeOut(j) => j
    case CountOut(j) => j case Return(j) => j
    case _ => 0
  }

  /** A step that leaves the callbacks alone. */
  lemma CountsSame(c: Config, s: State, s': State, j: nat)
    requires CountsExact(c, s) && Fits(c, s') && s'.active == s.active && s'.completed == s.completed
    requires j < |c.jobs| ==> s'.phases == s.phases[j := s'.phases[j]]
    requires j < |c.jobs| ==> InFlow(s'.phases[j]) == InFlow(s.phases[j]) && Behind(s'.phases[j]) == Behind(s.phases[j])
    requires j >= |c.jobs| ==> s'.phases == s.phases
    ensures CountsExact(c, s')
  {
    if j < |c.jobs| {
      BusyUpdate(s.phases, j, s'.phases[j]);
      forall name ensures JobsInFlow(c.jobs, s'.phases, name) == JobsInFlow(c.jobs, s.phases, name) {
        InFlowUpdate(c.jobs, s.phases, j, s'.phases[j], name);
      }
    }
  }

  lemma IncrementExact(active: map<string, nat>, jobs: set<nat>, jobs': set<nat>, j: nat, own: string, name: string)
    requires CountIs(active, name, jobs) && j !in jobs
    requires jobs' == if own == name then jobs + {j} else jobs
    ensures CountIs(Increment(active, own), name, jobs')
  {
  }

  lemma DecrementExact(active: map<string, nat>, jobs: set<nat>, jobs': set<nat>, j: nat, own: string, name: string)
    requires CountIs(active, name, jobs) && (own == name ==> j in jobs)
    requires jobs' == if own == name then jobs - {j} else jobs
    ensures CountIs(Decrement(active, own), name, jobs')
  {
    if own == name {
      assert jobs == jobs' + {j};
    }
  }

  lemma CountsInKept(c: Config, s: State, j: nat)
    requires CountsExact(c, s) && j < |c.jobs| && CountedIn(c, s, j).Some?
    ensures CountsExact(c, CountedIn(c, s, j).value)
  {
    hide CountIs, Increment;
    var s' := CountedIn(c, s, j).value;
    BusyUpdate(s.phases, j, Counted);
    forall name | c.debug ensures CountIs(s'.active, name, JobsInFlow(c.jobs, s'.phases, name)) {
      InFlowUpdate(c.jobs, s.phases, j, Counted, name);
      IncrementExact(s.active, JobsInFlow(c.jobs, s.phases, name), JobsInFlow(c.jobs, s'.phases, name), j,
          c.jobs[j].name, name);
    }
  }

  lemma CountsOutKept(c: Config, s: State, j: nat)
    requires CountsExact(c, s) && j < |c.jobs| && CountedOut(c, s, j).Some?
    ensures CountsExact(c, CountedOut(c, s, j).value)
  {
    hide CountIs, Decrement;
    var s' := CountedOut(c, s, j).value;
    BusyUpdate(s.phases, j, s'.phases[j]);
    forall name | c.debug ensures CountIs(s'.active, name, JobsInFlow(c.jobs, s'.phases, name)) {
      InFlowUpdate(c.jobs, s.phases, j, s'.phases[j], name);
      DecrementExact(s.active, JobsInFlow(c.jobs, s.phases, name), JobsInFlow(c.jobs, s'.phases, name), j,
          c.jobs[j].name, name);
    }
  }

  lemma CountsRunKept(c: Config, s: State)
    requires CountsExact(c, s) && InOrder(c, s)
    ensures CountsExact(c, RunCalled(s))
  {
    if s.status == IDLE {
      assert JobsBehind(s.phases) == {};
      forall name ensures JobsInFlow(c.jobs, s.phases, name) == {} {
      }
    }
  }

  lemma CountsKept(c: Config, s: State, e: Event)
    requires InOrder(c, s) && CountsExact(c, s) && Next(c, s, e).Some?
    ensures CountsExact(c, Next(c, s, e).value)
  {
    match e
    case Run => CountsRunKept(c, s);
    case CountIn(j) => CountsInKept(c, s, j);
    case CountOut(j) => CountsOutKept(c, s, j);
    case _ =>
      hide CountsExact, Next;
      CallbacksUntouched(c, s, e);
      CountsSame(c, s, Next(c, s, e).value, Changes(s, Next(c, s, e).value, e));
  }

  /** The job a step changes, or none. */
  function Changes(s: State, s': State, e: Event): nat {
    if s'.phases == s.phases then |s.phases| else Subject(s, e)
  }

  predicate WorkerStep(e: Event) {
    e.Take? || e.CountIn? || e.StartFlow? || e.Joined? || e.TimeOut? || e.CountOut? || e.Return?
  }

  lemma CallbacksUntouched(c: Config, s: State, e: Event)
    requires Fits(c, s) && (s.next < |c.jobs| ==> s.phases[s.next].Listed?)
    requires Next(c, s, e).Some? && !e.Run? && !e.CountIn? && !e.CountOut?
    ensures var s' := Next(c, s, e).value;
            var j := Changes(s, s', e);
            && s'.active == s.active && s'.completed == s.completed
            && (j < |c.jobs| ==> && s'.phases == s.phases[j := s'.phases[j]]
                                 && InFlow(s'.phases[j]) == InFlow(s.phases[j])
                                     && Behind(s'.phases[j]) == Behind(s.phases[j]))
            && (j >= |c.jobs| ==> s'.phases == s.phases)
  {
    if WorkerStep(e) {
      WorkerCallbacks(c, s, e);
    } else {
      assert e.Submit? || Next(c, s, e).value.phases == s.phases;
    }
  }

  lemma WorkerCallbacks(c: Config, s: State, e: Event)
    requires Fits(c, s) && Next(c, s, e).Some? && WorkerStep(e) && !e.CountIn? && !e.CountOut?
    ensures var s', j := Next(c, s, e).value, Subject(s, e);
            && s'.active == s.active && s'.completed == s.completed && j < |c.jobs|
            && s'.phases == s.phases[j := s'.phases[j]]
            && InFlow(s'.phases[j]) == InFlow(s.phases[j]) && Behind(s'.phases[j]) == Behind(s.phases[j])
  {
  }

  lemma SortedCollect(c: Config, s: State, j: nat)
    requires Sorted(c, s) && Collected(c, s, j).Some?
    ensures Sorted(c, Collected(c, s, j).value)
  {
    var s' := Collected(c, s, j).value;
    AppendOnce(s.results, j);
    AppendOnce(s.errors, j);
    assert Mapped(c, s'.results, s'.resultMap);
  }

  lemma AppendOnce(s: seq<nat>, j: nat)
    requires NoRepeats(s) && j !in s
    ensures NoRepeats(s + [j]) && forall i :: i in s + [j] <==> i in s || i == j
  {
  }

  lemma SortedSame(c: Config, s: State, s': State)
    requires Sorted(c, s) && Fits(c, s')
    requires s'.collected == s.collected && s'.results == s.results && s'.errors == s.errors
              && s'.resultMap == s.resultMap
    requires forall j | 0 <= j < |c.jobs| && s.phases[j].Finished? :: s'.phases[j] == s.phases[j]
    requires s'.status == IDLE ==> s.status == IDLE
    requires s'.status == DONE ==> forall j: nat | j < |c.jobs| :: j in s.collected
    ensures Sorted(c, s')
  {
  }

  lemma SortedKept(c: Config, s: State, e: Event)
    requires InOrder(c, s) && Sorted(c, s) && Next(c, s, e).Some?
    ensures Sorted(c, Next(c, s, e).value)
  {
    match e
    case Collect(j) => SortedCollect(c, s, j);
    case _ =>
      EmptyBeforeRun(c, s);
      hide Sorted, Next;
      ListsUntouched(c, s, e);
      SortedSame(c, s, Next(c, s, e).value);
  }

  lemma EmptyBeforeRun(c: Config, s: State)
    requires Sorted(c, s)
    ensures s.status == IDLE ==> s.collected == {} && s.results == [] && s.errors == [] && s.resultMap == map[]
    ensures s.status == DONE ==> forall j: nat | j < |c.jobs| :: j in s.collected
  {
  }

  lemma ListsUntouched(c: Config, s: State, e: Event)
    requires Fits(c, s) && (s.next < |c.jobs| ==> s.phases[s.next].Listed?) && Next(c, s, e).Some? && !e.Collect?
    requires s.status == IDLE ==> s.collected == {} && s.results == [] && s.errors == [] && s.resultMap == map[]
    requires s.status == DONE ==> forall j: nat | j < |c.jobs| :: j in s.collected
    ensures var s' := Next(c, s, e).value;
            && s'.collected == s.collected && s'.results == s.results && s'.errors == s.errors
                && s'.resultMap == s.resultMap
            && (forall j | 0 <= j < |c.jobs| && s.phases[j].Finished? :: s'.phases[j] == s.phases[j])
            && (s'.status == IDLE ==> s.status == IDLE)
            && (s'.status == DONE ==> forall j: nat | j < |c.jobs| :: j in s.collected)
  {
    if WorkerStep(e) {
      WorkerLists(c, s, e);
    } else {
      assert e.Submit? || Next(c, s, e).value.phases == s.phases;
    }
  }

  lemma WorkerLists(c: Config, s: State, e: Event)
    requires Fits(c, s) && Next(c, s, e).Some? && WorkerStep(e)
    ensures var s', j := Next(c, s, e).value, Subject(s, e);
            && s'.collected == s.collected && s'.results == s.results && s'.errors == s.errors
                && s'.resultMap == s.resultMap
            && s'.status == s.status && j < |c.jobs|
            && s'.phases == s.phases[j := s'.phases[j]] && !s.phases[j].Finished?
  {
  }

  /** A step that starts no flow and ends none. */
  lemma OwnedSame(c: Config, start: State, s: State, s': State, j: nat)
    requires Owned(c, start, s) && Fits(c, s') && s'.flows.Keys == s.flows.Keys
    requires forall f | f in s.flows :: s'.flows[f].status == s.flows[f].status
    requires j < |c.jobs| ==>
               && s'.phases == s.phases[j := s'.phases[j]]
               && PhaseMoves(c, s, s.phases[j], s'.phases[j], FlowOf(c, s, j).status)
    requires j >= |c.jobs| ==> s'.phases == s.phases
    ensures Owned(c, start, s')
  {
    assert forall i | 0 <= i < |c.jobs| :: Owns(s'.phases[i]) == Owns(s.phases[i]);
    hide Owns;
    forall f | f in s'.flows && start.flows[f].status.Idle? && !s'.flows[f].status.Idle?
      ensures exists i :: 0 <= i < |c.jobs| && c.jobs[i].flow == f && Owns(s'.phases[i])
    {
      var i :| 0 <= i < |c.jobs| && c.jobs[i].flow == f && Owns(s.phases[i]);
      assert Owns(s'.phases[i]);
    }
  }

  predicate PhaseMoves(c: Config, s: State, p: Phase, q: Phase, status: FlowStatus) {
    && Owns(q) == Owns(p)
    && (Owns(q) && !q.Joining? && q.exit.Came? ==> !status.Running?)
    && (q.Finished? ==> (q.ok ==> q.exit.Came? && status.Done?))
    && (Owns(q) && !q.Joining? && c.timeout.None? ==> q.exit.Came?)
  }

  /** The flow just started has an owner, and the others keep theirs. */
  lemma OwnersAfterStart(c: Config, start: State, s: State, s': State, j: nat)
    requires Owned(c, start, s) && j < |c.jobs| && s.phases[j].Counted?
    requires s'.phases == s.phases[j := Joining(s.clock)]
    requires s'.flows == s.flows[c.jobs[j].flow := Flow(Running, 0.0)]
    ensures forall f | f in s'.flows && start.flows[f].status.Idle? && !s'.flows[f].status.Idle? ::
              exists i :: 0 <= i < |c.jobs| && c.jobs[i].flow == f && Owns(s'.phases[i])
  {
    forall f | f in s'.flows && start.flows[f].status.Idle? && !s'.flows[f].status.Idle?
      ensures exists i :: 0 <= i < |c.jobs| && c.jobs[i].flow == f && Owns(s'.phases[i])
    {
      if f == c.jobs[j].flow {
        assert Owns(s'.phases[j]);
      } else {
        var i :| 0 <= i < |c.jobs| && c.jobs[i].flow == f && Owns(s.phases[i]);
        assert Owns(s'.phases[i]);
      }
    }
  }

  /** No other job owns the flow that is started. */
  lemma NoOtherOwner(c: Config, start: State, s: State, j: nat, i: nat)
    requires Owned(c, start, s) && j < |c.jobs| && i < |c.jobs| && FlowOf(c, s, j).status.Idle? && Owns(s.phases[i])
    ensures c.jobs[i].flow != c.jobs[j].flow
  {
  }

  lemma OwnedStart(c: Config, start: State, s: State, s': State, j: nat)
    requires Owned(c, start, s) && j < |c.jobs| && s.phases[j].Counted? && FlowOf(c, s, j).status.Idle?
    requires s' == s.(phases := s'.phases, flows := s'.flows) && s'.phases == s.phases[j := Joining(s.clock)]
    requires s'.flows == s.flows[c.jobs[j].flow := Flow(Running, 0.0)]
    ensures Owned(c, start, s')
  {
    var g := c.jobs[j].flow;
    OwnersAfterStart(c, start, s, s', j);
    forall i | 0 <= i < |c.jobs| && Owns(s'.phases[i]) && i != j ensures Owns(s.phases[i]) && c.jobs[i].flow != g {
      NoOtherOwner(c, start, s, j, i);
    }
    if !start.flows[g].status.Idle? {
      NeverIdleAgain(c, start, s, g);
    }
  }

  lemma NeverIdleAgain(c: Config, start: State, s: State, f: nat)
    requires Owned(c, start, s) && f in s.flows && !start.flows[f].status.Idle?
    ensures !s.flows[f].status.Idle?
  {
  }

  lemma OwnedEnd(c: Config, start: State, s: State, f: nat, ok: bool)
    requires Owned(c, start, s) && f in s.flows && s.flows[f].status.Running?
    ensures Owned(c, start, s.(flows := s.flows[f := s.flows[f].(status := Ended(Running, ok))]))
  {
    var s' := s.(flows := s.flows[f := s.flows[f].(status := Ended(Running, ok))]);
    assert s'.phases == s.phases && s'.flows.Keys == s.flows.Keys;
    assert forall g | g in s.flows :: s'.flows[g].status.Idle? == s.flows[g].status.Idle?;
  }

  lemma OwnedKept(c: Config, start: State, s: State, e: Event)
    requires Owned(c, start, s) && InOrder(c, s) && Next(c, s, e).Some?
    ensures Owned(c, start, Next(c, s, e).value)
  {
    if e.FlowEnds? {
      OwnedEnd(c, start, s, e.f, e.ok);
    } else if e.StartFlow? && FlowOf(c, s, e.j).status.Idle? {
      OwnedStart(c, start, s, Next(c, s, e).value, e.j);
    } else {
      OwnerFacts(c, start, s, Subject(s, e));
      hide Owned, Next;
      JobsCarryOn(c, start, s, e);
      OwnedSame(c, start, s, Next(c, s, e).value, Changes(s, Next(c, s, e).value, e));
    }
  }

  lemma OwnerFacts(c: Config, start: State, s: State, j: nat)
    requires Owned(c, start, s)
    ensures j < |c.jobs| ==> PhaseMoves(c, s, s.phases[j], s.phases[j], FlowOf(c, s, j).status)
  {
  }

  lemma JobsCarryOn(c: Config, start: State, s: State, e: Event)
    requires Fits(c, s) && (s.next < |c.jobs| ==> s.phases[s.next].Listed?) && Next(c, s, e).Some?
    requires var j := Subject(s, e);
             j < |c.jobs| ==> PhaseMoves(c, s, s.phases[j], s.phases[j], FlowOf(c, s, j).status)
    requires !e.FlowEnds? && !(e.StartFlow? && e.j < |c.jobs| && FlowOf(c, s, e.j).status.Idle?)
    ensures var s' := Next(c, s, e).value;
            var j := Changes(s, s', e);
            && (forall f | f in s.flows :: s'.flows[f].status == s.flows[f].status)
            && (j < |c.jobs| ==> s'.phases == s.phases[j := s'.phases[j]]
                                 && PhaseMoves(c, s, s.phases[j], s'.phases[j], FlowOf(c, s, j).status))
            && (j >= |c.jobs| ==> s'.phases == s.phases)
  {
    if WorkerStep(e) {
      WorkerMoves(c, start, s, e);
    } else {
      assert e.Submit? || Next(c, s, e).value.phases == s.phases;
    }
  }

  lemma WorkerMoves(c: Config, start: State, s: State, e: Event)
    requires Fits(c, s) && Next(c, s, e).Some? && WorkerStep(e)
    requires var j := Subject(s, e);
             j < |c.jobs| ==> PhaseMoves(c, s, s.phases[j], s.phases[j], FlowOf(c, s, j).status)
    requires !(e.StartFlow? && e.j < |c.jobs| && FlowOf(c, s, e.j).status.Idle?)
    ensures var s', j := Next(c, s, e).value, Subject(s, e);
            && (forall f | f in s.flows :: s'.flows[f].status == s.flows[f].status)
            && j < |c.jobs| && s'.phases == s.phases[j := s'.phases[j]]
            && PhaseMoves(c, s, s.phases[j], s'.phases[j], FlowOf(c, s, j).status)
  {
  }

  lemma OnTimeSame(c: Config, start: State, s: State, s': State)
    requires OnTime(c, start, s) && InOrder(c, s')
    requires s'.next == s.next && s'.deadline == s.deadline && s'.submissions == s.submissions && s'.t0 == s.t0
    requires forall j | s.next <= j < |c.jobs| ::
               FlowOf(c, s', j).delay == FlowOf(c, s, j).delay || Earlier(c, s.next, j)
    ensures OnTime(c, start, s')
  {
  }

  /** A job whose flow was submitted before is submitted no earlier than that. */
  lemma OnTimeSubmit(c: Config, start: State, s: State)
    requires OnTime(c, start, s) && Next(c, s, Submit).Some? && InOrder(c, Next(c, s, Submit).value)
    ensures OnTime(c, start, Next(c, s, Submit).value)
  {
    var s', n := Next(c, s, Submit).value, s.next;
    forall j | s'.next <= j < |c.jobs| && Earlier(c, n, j) ensures Earlier(c, s'.next, j) {
    }
    if Earlier(c, n, n) {
      var i :| 0 <= i < n && c.jobs[i].flow == c.jobs[n].flow;
      assert s'.submissions[n] >= s'.submissions[i] == s.submissions[i];
    }
  }

  lemma OnTimeKept(c: Config, start: State, s: State, e: Event)
    requires OnTime(c, start, s) && Next(c, s, e).Some? && InOrder(c, Next(c, s, e).value)
    ensures OnTime(c, start, Next(c, s, e).value)
  {
    var s' := Next(c, s, e).value;
    if e.Submit? {
      OnTimeSubmit(c, start, s);
    } else if e.Pop? || e.Run? {
      assert s'.next == s.next && s'.submissions == s.submissions && s'.flows == s.flows;
    } else {
      if e.StartFlow? {
        StartedEarlier(c, s, e.j);
      }
      DeadlinesUntouched(c, s, e);
      hide OnTime, InOrder, Next;
      OnTimeSame(c, start, s, s');
    }
  }

  lemma DeadlinesUntouched(c: Config, s: State, e: Event)
    requires Fits(c, s) && s.next <= |c.jobs| && Next(c, s, e).Some? && !e.Pop? && !e.Submit? && !e.Run?
    requires e.StartFlow? && e.j < |c.jobs| ==>
               forall i: nat | s.next <= i < |c.jobs| ::
                 FlowOf(c, StartedFlow(c, s, e.j).value, i) == FlowOf(c, s, i) || Earlier(c, s.next, i)
    ensures var s' := Next(c, s, e).value;
            && s'.next == s.next && s'.deadline == s.deadline && s'.submissions == s.submissions && s'.t0 == s.t0
            && forall j | s.next <= j < |c.jobs| ::
                 FlowOf(c, s', j).delay == FlowOf(c, s, j).delay || Earlier(c, s.next, j)
  {
    hide Earlier;
  }

  lemma StartedEarlier(c: Config, s: State, j: nat)
    requires InOrder(c, s) && j < |c.jobs| && StartedFlow(c, s, j).Some?
    ensures forall i: nat | s.next <= i < |c.jobs| ::
              FlowOf(c, StartedFlow(c, s, j).value, i) == FlowOf(c, s, i) || Earlier(c, s.next, i)
  {
    assert j < s.next;
    forall i: nat | s.next <= i < |c.jobs| && c.jobs[i].flow == c.jobs[j].flow ensures Earlier(c, s.next, i) {
    }
  }

  // ---- Every run ----

  ghost predicate Invariant(c: Config, start: State, s: State) {
    && InOrder(c, s) && PoolBounded(c, s) && CountsExact(c, s) && Sorted(c, s) && Owned(c, start, s)
    && OnTime(c, start, s)
  }

  lemma StartsWell(c: Config, flows: map<nat, Flow>)
    requires c.maxWorkers >= 1 && forall i | 0 <= i < |c.jobs| :: c.jobs[i].flow in flows
    ensures Invariant(c, Initial(c, flows), Initial(c, flows))
  {
    var s := Initial(c, flows);
    assert BusyJobs(s.phases) == {} && JobsBehind(s.phases) == {};
    forall name ensures JobsInFlow(c.jobs, s.phases, name) == {} {
    }
  }

  lemma StepKeeps(c: Config, start: State, s: State, e: Event)
    requires Invariant(c, start, s) && Next(c, s, e).Some?
    ensures Invariant(c, start, Next(c, s, e).value)
  {
    InOrderFits(c, s);
    hide InOrder, PoolBounded, CountsExact, Sorted, Owned, OnTime, Next;
    InOrderKept(c, s, e);
    PoolKept(c, s, e);
    CountsKept(c, s, e);
    SortedKept(c, s, e);
    OwnedKept(c, start, s, e);
    OnTimeKept(c, start, s, e);
  }

  lemma InOrderFits(c: Config, s: State)
    requires InOrder(c, s)
    ensures Fits(c, s)
  {
  }

  /** At every moment of every interleaving: submissions in list order and never early, a bounded pool, exact
      counts, nothing collected twice. */
  lemma {:induction false} EveryMoment(c: Config, flows: map<nat, Flow>, events: seq<Event>, s: State)
    requires c.maxWorkers >= 1 && forall i | 0 <= i < |c.jobs| :: c.jobs[i].flow in flows
    requires Reachable(c, Initial(c, flows), events, s)
    ensures Invariant(c, Initial(c, flows), s)
    decreases |events|
  {
    hide Invariant, Next;
    StartsWell(c, flows);
    if events != [] {
      var n := |events| - 1;
      var m :| Reachable(c, Initial(c, flows), events[..n], m) && Fits(c, m) && Next(c, m, events[n]) == Some(s);
      EveryMoment(c, flows, events[..n], m);
      StepKeeps(c, Initial(c, flows), m, events[n]);
    }
  }

  /** The status only moves from idle to running to done or error; run() is refused from then on. */
  lemma StatusMoves(c: Config, s: State, e: Event)
    requires Fits(c, s) && Next(c, s, e).Some?
    ensures var s' := Next(c, s, e).value;
            && (s'.status == s.status || (s.status == IDLE && s'.status == RUNNING && e.Run?)
                || (s.status == RUNNING && s'.status in {DONE, ERROR} && e.Close?))
            && (e.Run? && s.status != IDLE ==> s' == s)
  {
  }

  function Elements(s: seq<nat>): set<nat> {
    set i | 0 <= i < |s| :: s[i]
  }

  lemma {:induction false} ElementsCount(s: seq<nat>)
    requires NoRepeats(s)
    ensures |Elements(s)| == |s| && forall j :: j in Elements(s) <==> j in s
  {
    if s == [] {
      assert Elements(s) == {};
    } else {
      var n := |s| - 1;
      ElementsCount(s[..n]);
      ElementsLast(s);
    }
  }

  lemma ElementsLast(s: seq<nat>)
    requires s != []
    ensures Elements(s) == Elements(s[..|s| - 1]) + {s[|s| - 1]}
    ensures forall j :: j in s <==> j in s[..|s| - 1] || j == s[|s| - 1]
  {
    var n := |s| - 1;
    assert s == s[..n] + [s[n]];
    forall j ensures j in Elements(s) <==> j in s {
    }
    forall j ensures j in Elements(s[..n]) <==> j in s[..n] {
    }
  }

  function Below(n: nat): (s: set<nat>)
    ensures |s| == n && forall j: nat :: j in s <==> j < n
  {
    if n == 0 then {} else Below(n - 1) + {n - 1}
  }

  /** What errors() and results() answer. */
  function Errors(s: State): Result<seq<nat>> {
    if s.status == RUNNING || s.status == ERROR then Err(RuntimeError) else Ok(s.errors)
  }

  function ResultOf(c: Config, s: State, f: nat): Result<nat> {
    if s.status == RUNNING || !c.saveResults then Err(RuntimeError)
    else if f in s.resultMap then Ok(s.resultMap[f]) else Err(KeyError)
  }

  /** Conservation: when the scheduler is done, each of its jobs is among the results or among the errors and
      not both; the lists have no others. */
  lemma EachJobOnce(c: Config, start: State, s: State)
    requires Invariant(c, start, s) && s.status == DONE && c.saveResults
    ensures forall j: nat :: j < |c.jobs| <==> j in s.results || j in s.errors
    ensures forall j :: !(j in s.results && j in s.errors)
    ensures |s.results| + |s.errors| == |c.jobs|
  {
    hide CountsExact, OnTime, InOrder, PoolBounded, Owned, Mapped;
    assert forall j: nat :: j < |c.jobs| <==> j in s.results || j in s.errors;
    PartitionCount(s.results, s.errors, |c.jobs|);
  }

  lemma PartitionCount(a: seq<nat>, b: seq<nat>, n: nat)
    requires NoRepeats(a) && NoRepeats(b)
    requires forall j: nat :: j < n <==> j in a || j in b
    requires forall j :: !(j in a && j in b)
    ensures |a| + |b| == n
  {
    ElementsCount(a);
    ElementsCount(b);
    assert Elements(a) + Elements(b) == Below(n);
    assert Elements(a) * Elements(b) == {};
  }

  /** So, when every flow object is listed once: a flow has a result exactly when its job is not among the
      errors. A flow listed twice has a result of one job at most; the other is an error. */
  lemma ResultOrError(c: Config, start: State, s: State, j: nat)
    requires Invariant(c, start, s) && s.status == DONE && c.saveResults && j < |c.jobs|
    ensures DistinctFlows(c) ==> (ResultOf(c, s, c.jobs[j].flow) == Ok(j) <==> j !in s.errors)
    ensures forall i: nat | i < |c.jobs| && i != j && c.jobs[i].flow == c.jobs[j].flow :: i in s.errors || j in s.errors
    ensures !start.flows[c.jobs[j].flow].status.Idle? ==> j in s.errors
  {
    hide CountsExact, OnTime, InOrder, PoolBounded;
    EachJobOnce(c, start, s);
    forall i: nat | i < |c.jobs| && i !in s.errors
      ensures s.phases[i].Finished? && s.phases[i].ok && Owns(s.phases[i])
    {
    }
  }

  // ---- What is bounded ----

  /** The flows this scheduler started that are still running. */
  function LiveFlows(start: State, s: State): set<nat> {
    set f | f in s.flows && f in start.flows && s.flows[f].status.Running? && start.flows[f].status.Idle?
  }

  function LateJobs(phases: seq<Phase>): set<nat> {
    set j: nat | j < |phases| && (phases[j].Leaving? || phases[j].Uncounted? || phases[j].Finished?)
        && phases[j].exit.Late?
  }

  function FlowsOf(c: Config, jobs: set<nat>): set<nat> {
    set j | j in jobs && j < |c.jobs| :: c.jobs[j].flow
  }

  lemma {:induction false} FewerFlows(c: Config, jobs: set<nat>)
    ensures |FlowsOf(c, jobs)| <= |jobs|
    decreases |jobs|
  {
    if jobs != {} {
      var j :| j in jobs;
      FewerFlows(c, jobs - {j});
      if j < |c.jobs| {
        assert FlowsOf(c, jobs) == FlowsOf(c, jobs - {j}) + {c.jobs[j].flow};
      } else {
        assert FlowsOf(c, jobs) == FlowsOf(c, jobs - {j});
      }
    }
  }

  lemma SubsetCount(a: set<nat>, b: set<nat>)
    requires a <= b
    ensures |a| <= |b|
  {
    if a != b {
      assert b == a + (b - a);
    }
  }

  /** The pool bounds the workers; a flow that timed out runs on without one. So the flows that run are at most
      the workers and the timed out ones together, and without a timeout at most the workers. */
  lemma LiveFlowsBounded(c: Config, start: State, s: State)
    requires Invariant(c, start, s)
    ensures |LiveFlows(start, s)| <= c.maxWorkers + |LateJobs(s.phases)|
    ensures c.timeout.None? ==> |LiveFlows(start, s)| <= c.maxWorkers
  {
    var busy, late := BusyJobs(s.phases), LateJobs(s.phases);
    OwnersAreBusyOrLate(c, start, s);
    FewerFlows(c, busy + late);
    SubsetCount(LiveFlows(start, s), FlowsOf(c, busy + late));
    assert |busy + late| <= |busy| + |late|;
    if c.timeout.None? {
      assert late == {};
    }
  }

  lemma OwnersAreBusyOrLate(c: Config, start: State, s: State)
    requires Owned(c, start, s)
    ensures LiveFlows(start, s) <= FlowsOf(c, BusyJobs(s.phases) + LateJobs(s.phases))
    ensures c.timeout.None? ==> LateJobs(s.phases) == {}
  {
    forall f | f in LiveFlows(start, s) ensures f in FlowsOf(c, BusyJobs(s.phases) + LateJobs(s.phases)) {
      var j: nat :| j < |c.jobs| && c.jobs[j].flow == f && Owns(s.phases[j]);
      assert j in BusyJobs(s.phases) + LateJobs(s.phases);
    }
  }

  /** All of it for any run. */
  lemma EveryRun(c: Config, flows: map<nat, Flow>, events: seq<Event>, s: State)
    requires c.maxWorkers >= 1 && forall i | 0 <= i < |c.jobs| :: c.jobs[i].flow in flows
    requires Reachable(c, Initial(c, flows), events, s)
    ensures |BusyJobs(s.phases)| <= c.maxWorkers
    ensures |LiveFlows(Initial(c, flows), s)| <= c.maxWorkers + |LateJobs(s.phases)|
    ensures |s.submissions| == s.next && forall i, j | 0 <= i < j < s.next :: s.submissions[i] <= s.submissions[j]
    ensures forall j | 0 <= j < s.next :: s.submissions[j] >= s.t0 + flows[c.jobs[j].flow].delay
    ensures c.debug ==> forall name :: CountIs(s.active, name, JobsInFlow(c.jobs, s.phases, name))
    ensures s.status == DONE && c.saveResults ==>
              && |s.results| + |s.errors| == |c.jobs|
              && forall j: nat | j < |c.jobs| :: (j in s.results) != (j in s.errors)
  {
    EveryMoment(c, flows, events, s);
    LiveFlowsBounded(c, Initial(c, flows), s);
    if s.status == DONE && c.saveResults {
      EachJobOnce(c, Initial(c, flows), s);
    }
    hide Reachable, PoolBounded, Sorted, Owned;
    assert PoolBounded(c, s);
  }

  function Steps(c: Config, s: State, events: seq<Event>): Option<State>
    requires Fits(c, s)
    decreases |events|
  {
    if events == [] then Some(s)
    else match Next(c, s, events[0])
      case None => None
      case Some(m) => Steps(c, m, events[1..])
  }

  /** Whenever a flow times out while the next queued one can be started, six steps of the workers leave one
      more flow running than before, and as many workers. So a pool that is full of running flows is exceeded. */
  lemma TimeoutExceedsPool(c: Config, start: State, s: State, j: nat, k: nat)
    requires Fits(c, s) && Fits(c, start) && start.flows.Keys == s.flows.Keys && j < |c.jobs| && k < |c.jobs| && j != k
    requires JoinEnded(c, s, j, true).Some? && |BusyJobs(s.phases)| <= c.maxWorkers
    requires s.phases[k].Queued? && forall i | 0 <= i < k :: !s.phases[i].Queued?
    requires FlowOf(c, s, k).status.Idle? && FlowOf(c, start, k).status.Idle?
    ensures var after := Steps(c, s, [TimeOut(j), CountOut(j), Return(j), Take(k), CountIn(k), StartFlow(k)]);
            && after.Some?
            && LiveFlows(start, after.value) == LiveFlows(start, s) + {c.jobs[k].flow}
                && c.jobs[k].flow !in LiveFlows(start, s)
            && |BusyJobs(after.value.phases)| == |BusyJobs(s.phases)|
  {
    hide Next, Steps, BusyJobs, LiveFlows;
    var a, b, d := LateOut(c, s, j);
    FreedWorker(c, s, d, j, k);
    var e, f, g := NextIn(c, d, k);
    SixSteps(c, s, a, b, d, e, f, g, j, k);
    SameWorkers(s.phases, j, Finished(Late, false), k, Joining(d.clock));
    OneMoreLive(start, s, g, c.jobs[k].flow);
  }

  lemma FreedWorker(c: Config, s: State, d: State, j: nat, k: nat)
    requires Fits(c, s) && Fits(c, d) && j < |c.jobs| && k < |c.jobs| && j != k && s.phases[j].Joining?
    requires d.phases == s.phases[j := Finished(Late, false)] && |BusyJobs(s.phases)| <= c.maxWorkers
    requires s.phases[k].Queued? && forall i | 0 <= i < k :: !s.phases[i].Queued?
    ensures TakenBy(c, d, k).Some?
  {
    BusyUpdate(s.phases, j, Finished(Late, false));
    assert j in BusyJobs(s.phases);
  }

  lemma SameWorkers(phases: seq<Phase>, j: nat, p: Phase, k: nat, q: Phase)
    requires j < |phases| && k < |phases| && j != k && Busy(phases[j]) && !Busy(p) && !Busy(phases[k]) && Busy(q)
    ensures |BusyJobs(phases[j := p][k := q])| == |BusyJobs(phases)|
  {
    BusyUpdate(phases, j, p);
    BusyUpdate(phases[j := p], k, q);
    assert j in BusyJobs(phases) && k !in BusyJobs(phases);
  }

  lemma OneMoreLive(start: State, s: State, g: State, f: nat)
    requires f in s.flows && f in start.flows && start.flows[f].status.Idle? && s.flows[f].status.Idle?
    requires g.flows == s.flows[f := Flow(Running, 0.0)]
    ensures LiveFlows(start, g) == LiveFlows(start, s) + {f} && f !in LiveFlows(start, s)
  {
  }

  /** The worker of a job that took too long. */
  lemma LateOut(c: Config, s: State, j: nat) returns (a: State, b: State, d: State)
    requires Fits(c, s) && j < |c.jobs| && JoinEnded(c, s, j, true).Some?
    ensures Next(c, s, TimeOut(j)) == Some(a) && Fits(c, a) && Next(c, a, CountOut(j)) == Some(b) && Fits(c, b)
    ensures Next(c, b, Return(j)) == Some(d) && Fits(c, d)
    ensures d.phases == s.phases[j := Finished(Late, false)] && d.flows == s.flows
  {
    a := Next(c, s, TimeOut(j)).value;
    b := Next(c, a, CountOut(j)).value;
    d := Next(c, b, Return(j)).value;
  }

  /** A free worker that starts a flow. */
  lemma NextIn(c: Config, d: State, k: nat) returns (e: State, f: State, g: State)
    requires Fits(c, d) && k < |c.jobs| && TakenBy(c, d, k).Some? && FlowOf(c, d, k).status.Idle?
    ensures Next(c, d, Take(k)) == Some(e) && Fits(c, e) && Next(c, e, CountIn(k)) == Some(f) && Fits(c, f)
    ensures Next(c, f, StartFlow(k)) == Some(g)
    ensures Fits(c, g) && g.clock == d.clock
    ensures g.phases == d.phases[k := Joining(d.clock)] && g.flows == d.flows[c.jobs[k].flow := Flow(Running, 0.0)]
  {
    e := Next(c, d, Take(k)).value;
    f := Next(c, e, CountIn(k)).value;
    g := Next(c, f, StartFlow(k)).value;
  }

  lemma SixSteps(c: Config, s: State, a: State, b: State, d: State, e: State, f: State, g: State, j: nat, k: nat)
    requires Fits(c, s) && Next(c, s, TimeOut(j)) == Some(a) && Next(c, a, CountOut(j)) == Some(b)
              && Next(c, b, Return(j)) == Some(d)
    requires Next(c, d, Take(k)) == Some(e) && Next(c, e, CountIn(k)) == Some(f) && Next(c, f, StartFlow(k)) == Some(g)
    ensures Steps(c, s, [TimeOut(j), CountOut(j), Return(j), Take(k), CountIn(k), StartFlow(k)]) == Some(g)
  {
    hide Next;
    assert Steps(c, g, []) == Some(g);
    var x := StartFlow(k);
    assert Steps(c, f, [x]) == Some(g) by { assert [x][1..] == []; }
    assert Steps(c, e, [CountIn(k), x]) == Some(g) by { assert [CountIn(k), x][1..] == [x]; }
    assert Steps(c, d, [Take(k), CountIn(k), x]) == Some(g) by { assert [Take(k), CountIn(k),
        x][1..] == [CountIn(k), x]; }
    assert Steps(c, b, [Return(j), Take(k), CountIn(k), x]) == Some(g) by {
      assert [Return(j), Take(k), CountIn(k), x][1..] == [Take(k), CountIn(k), x];
    }
    assert Steps(c, a, [CountOut(j), Return(j), Take(k), CountIn(k), x]) == Some(g) by {
      assert [CountOut(j), Return(j), Take(k), CountIn(k), x][1..] == [Return(j), Take(k), CountIn(k), x];
    }
    assert [TimeOut(j), CountOut(j), Return(j), Take(k), CountIn(k), x][1..] == [CountOut(j), Return(j), Take(k),
        CountIn(k), x];
  }
}

/** The scheduler object: the fields its threads share, one method per locked section. */
module Scheduler {
  import opened Wrappers
  import opened FlowMachine
  import opened StableSort

  datatype Listed = Listed(job: Job, delay: real)

  function Delay(f: Listed): real {
    f.delay
  }

  /** sorted(flows, key=delay): the scheduler's list. */
  function Arranged(flows: seq<Listed>): seq<Listed> {
    SortBy(flows, Delay)
  }

  /** The machine submits the arranged list from its front, so in the order of the delays. */
  lemma SubmittedByDelay(flows: seq<Listed>, c: Config, s: State, i: nat, j: nat)
    requires c.jobs == seq(|Arranged(flows)|, k requires 0 <= k < |Arranged(flows)| => Arranged(flows)[k].job)
    requires InOrder(c, s) && i < s.next && s.next <= j < |c.jobs|
    ensures Arranged(flows)[i].delay <= Arranged(flows)[j].delay && !s.phases[i].Listed? && s.phases[j].Listed?
  {
    SortBySorts(flows, Delay);
  }

  class FlowScheduler {
    const flows: seq<Listed>
    const maxWorkers: nat
    const debug: bool
    const saveResults: bool
    var status: Status
    var activeFlows: map<string, nat>
    var completedCount: nat
    var results: seq<nat>
    var resultMap: map<nat, nat>
    var errors: seq<nat>
    var schedulerError: bool

    constructor (flows: seq<Listed>, maxWorkers: nat, debug: bool, saveResults: bool)
      requires maxWorkers >= 1
      ensures this.flows == Arranged(flows) && status == IDLE
      ensures this.maxWorkers == maxWorkers && this.debug == debug && this.saveResults == saveResults
    {
      this.flows := Arranged(flows);
      this.maxWorkers, this.debug, this.saveResults := maxWorkers, debug, saveResults;
      status, activeFlows, completedCount, results, resultMap, errors, schedulerError := IDLE, map[], 0, [], map[],
          [], false;
    }

    /** The object shows what the machine's state says; while the scheduler runs its errors are kept aside. */
    predicate Shows(s: State)
      reads this
    {
      && status == s.status && activeFlows == s.active && completedCount == s.completed && results == s.results
      && resultMap == s.resultMap && (status == DONE ==> errors == s.errors) && (status == IDLE ==> errors == [])
    }

    method Run(ghost s: State) returns (refused: bool)
      requires Shows(s)
      modifies this
      ensures refused == (old(status) != IDLE) && Shows(RunCalled(s))
    {
      if status != IDLE {
        return true;
      }
      status, errors, results, resultMap, completedCount, schedulerError := RUNNING, [], [], map[], 0, false;
      activeFlows := map[];
      return false;
    }

    method OnFlowStart(name: string)
      modifies this`activeFlows
      ensures activeFlows == Increment(old(activeFlows), name)
    {
      var count := 0;
      if name in activeFlows {
        count := activeFlows[name];
      }
      activeFlows := activeFlows[name := count + 1];
    }

    method OnFlowDone(name: string)
      modifies this`activeFlows, this`completedCount
      ensures activeFlows == Decrement(old(activeFlows), name) && completedCount == old(completedCount) + 1
    {
      completedCount := completedCount + 1;
      var count := if name in activeFlows then activeFlows[name] else 0;
      if count <= 1 {
        activeFlows := activeFlows - {name};
      } else {
        activeFlows := activeFlows[name := count - 1];
      }
    }

    /** The end of the scheduler's thread. */
    method Finish(collected: seq<nat>, failed: bool, ghost c: Config, ghost s: State)
      requires Fits(c, s) && Shows(s) && Closed(c, s).Some? && collected == s.errors && failed == s.failed
      modifies this`errors, this`status, this`schedulerError
      ensures Shows(Closed(c, s).value)
    {
      if failed {
        schedulerError, status := true, ERROR;
      } else {
        errors, status := collected, DONE;
      }
    }

    method GetErrors(ghost s: State) returns (r: Result<seq<nat>>)
      requires Shows(s) && (s.status == IDLE ==> s.errors == [])
      ensures r == Errors(s)
    {
      if status == RUNNING {
        return Err(RuntimeError);
      }
      if status == ERROR {
        return Err(RuntimeError);
      }
      return Ok(errors);
    }

    method GetResult(flow: nat, ghost c: Config, ghost s: State) returns (r: Result<nat>)
      requires Shows(s) && c.saveResults == saveResults
      ensures r == ResultOf(c, s, flow)
    {
      if status == RUNNING {
        return Err(RuntimeError);
      }
      if !saveResults {
        return Err(RuntimeError);
      }
      if flow in resultMap {
        return Ok(resultMap[flow]);
      }
      return Err(KeyError);
    }
  }
}

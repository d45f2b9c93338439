/** The interface version counter under racing workers: each worker reads it, adds one and writes it back, in two
    steps that other workers' steps may come between (satgonetem/services/mixins/interface_mgr.py:97,
    satgonetem/services/mixins/link_ops.py:371-393). */
module InterfaceVersion {

  /** Where one worker is in its read-add-write. */
  datatype Worker = Idle | Holding(read: int) | Done

  datatype State = State(version: int, workers: seq<Worker>)

  ghost predicate ReadStep(s: State, t: State, i: nat) {
    && i < |s.workers| && s.workers[i].Idle?
    && t == State(s.version, s.workers[i := Holding(s.version)])
  }

  ghost predicate WriteStep(s: State, t: State, i: nat) {
    && i < |s.workers| && s.workers[i].Holding?
    && t == State(s.workers[i].read + 1, s.workers[i := Done])
  }

  ghost predicate Step(s: State, t: State) {
    exists i: nat :: ReadStep(s, t, i) || WriteStep(s, t, i)
  }

  /** One run of the thread pool: from every worker idle to every worker done, in any interleaving. */
  ghost predicate Phase(states: seq<State>, n: nat) {
    && states != []
    && |states[0].workers| == n && (forall i | 0 <= i < n :: states[0].workers[i].Idle?)
    && (forall k | 0 <= k < |states| - 1 :: Step(states[k], states[k + 1]))
    && (forall i | 0 <= i < |Last(states).workers| :: Last(states).workers[i].Done?)
  }

  function Last(states: seq<State>): State
    requires states != []
  {
    states[|states| - 1]
  }

  function DoneCount(workers: seq<Worker>): nat {
    if workers == [] then 0
    else DoneCount(workers[..|workers| - 1]) + (if workers[|workers| - 1].Done? then 1 else 0)
  }

  lemma {:induction false} DoneCountUpdate(workers: seq<Worker>, i: nat, w: Worker)
    requires i < |workers|
    ensures DoneCount(workers[i := w])
            == DoneCount(workers) - (if workers[i].Done? then 1 else 0) + (if w.Done? then 1 else 0)
  {
    var n := |workers| - 1;
    if i < n {
      DoneCountUpdate(workers[..n], i, w);
      assert workers[i := w][..n] == workers[..n][i := w];
    } else {
      assert workers[i := w][..n] == workers[..n];
    }
  }

  lemma {:induction false} DoneCountBounds(workers: seq<Worker>)
    ensures DoneCount(workers) <= |workers|
    ensures (forall i | 0 <= i < |workers| :: workers[i].Done?) ==> DoneCount(workers) == |workers|
    ensures (exists i :: 0 <= i < |workers| && workers[i].Done?) ==> DoneCount(workers) > 0
    ensures (forall i | 0 <= i < |workers| :: !workers[i].Done?) ==> DoneCount(workers) == 0
  {
    if workers != [] {
      var n := |workers| - 1;
      DoneCountBounds(workers[..n]);
      if i :| 0 <= i < |workers| && workers[i].Done? && i < n {
        assert workers[..n][i].Done?;
      }
    }
  }

  /** The counter never falls below its value at the start of the phase, and is above it once a worker is done,
      though a stale write may lower it on the way. */
  ghost predicate Inv(start: int, n: nat, s: State) {
    && |s.workers| == n
    && start + (if DoneCount(s.workers) > 0 then 1 else 0) <= s.version <= start + DoneCount(s.workers)
    && forall i | 0 <= i < n && s.workers[i].Holding? :: start <= s.workers[i].read <= start + DoneCount(s.workers)
  }

  lemma StepKeepsInv(start: int, n: nat, s: State, t: State)
    requires Inv(start, n, s) && Step(s, t)
    ensures Inv(start, n, t)
  {
    var i: nat :| ReadStep(s, t, i) || WriteStep(s, t, i);
    DoneCountUpdate(s.workers, i, t.workers[i]);
  }

  lemma {:induction false} PhaseKeepsInv(states: seq<State>, n: nat, k: nat)
    requires Phase(states, n) && k < |states|
    ensures Inv(states[0].version, n, states[k])
  {
    if k == 0 {
      DoneCountBounds(states[0].workers);
    } else {
      PhaseKeepsInv(states, n, k - 1);
      StepKeepsInv(states[0].version, n, states[k - 1], states[k]);
    }
  }

  /** Whatever the interleaving, a phase of n increments raises the counter by at least one, if there is one,
      and by at most n. */
  lemma PhaseRaisesVersion(states: seq<State>, n: nat)
    requires Phase(states, n)
    ensures states[0].version + (if n > 0 then 1 else 0) <= Last(states).version <= states[0].version + n
  {
    PhaseKeepsInv(states, n, |states| - 1);
    DoneCountBounds(Last(states).workers);
  }

  /** Increments do get lost: two workers may raise the counter by one only. */
  lemma IncrementCanBeLost() returns (states: seq<State>)
    ensures Phase(states, 2) && Last(states).version == states[0].version + 1
  {
    var s0 := State(0, [Idle, Idle]);
    var s1 := State(0, [Holding(0), Idle]);
    var s2 := State(0, [Holding(0), Holding(0)]);
    var s3 := State(1, [Done, Holding(0)]);
    var s4 := State(1, [Done, Done]);
    states := [s0, s1, s2, s3, s4];
    assert ReadStep(s0, s1, 0) && ReadStep(s1, s2, 1) && WriteStep(s2, s3, 0) && WriteStep(s3, s4, 1);
  }

  // ---- Across phases ----

  /** What a reader sees between phases: the counter and the interface lists. */
  datatype Boundary<T> = Boundary(version: int, interfaces: T)

  /** Between two boundaries one phase ran; without an increment nothing changed. */
  ghost predicate Linked<T>(a: Boundary<T>, b: Boundary<T>, states: seq<State>, n: nat) {
    && Phase(states, n) && states[0].version == a.version && Last(states).version == b.version
    && (n == 0 ==> a.interfaces == b.interfaces)
  }

  ghost predicate History<T>(bs: seq<Boundary<T>>, phases: seq<seq<State>>, counts: seq<nat>) {
    && |bs| == |phases| + 1 && |counts| == |phases|
    && forall k | 0 <= k < |phases| :: Linked(bs[k], bs[k + 1], phases[k], counts[k])
  }

  /** A cache of what was computed from the interface lists at one boundary is still right at any later one
      where the counter has the same value; and a phase that changed them left the counter above every
      earlier value. */
  lemma {:induction false} EqualVersionsEqualLists<T>(bs: seq<Boundary<T>>, phases: seq<seq<State>>, counts: seq<nat>,
                                                      i: nat, j: nat)
    requires History(bs, phases, counts) && i <= j < |bs|
    ensures bs[i].version <= bs[j].version
    ensures bs[i].version == bs[j].version ==> bs[i].interfaces == bs[j].interfaces
    ensures j > 0 && i < j && counts[j - 1] > 0 ==> bs[i].version < bs[j].version
  {
    if i < j {
      EqualVersionsEqualLists(bs, phases, counts, i, j - 1);
      assert Linked(bs[j - 1], bs[j], phases[j - 1], counts[j - 1]);
      PhaseRaisesVersion(phases[j - 1], counts[j - 1]);
    }
  }
}

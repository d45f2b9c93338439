/** One link: its distance, delay, capacities and dirty flag (satgonetem/models/link.py). */
module Links {
  import opened Wrappers
  import opened Nodes

  datatype LinkType = InterSatelliteLink | GroundStationLink | GroundObjectLink

  /** <owner name>.<peer id>. */
  datatype IfName = IfName(owner: NodeRef, peerId: nat)

  /** An interface object: its identity, its name and its peer object's identity and name. */
  datatype Interface = Interface(uid: nat, name: IfName, peerUid: nat, peerName: IfName)

  datatype LinkState = LinkState(
    source: NodeRef, target: NodeRef, kind: LinkType, useBudget: bool, defaultCapacity: nat,
    distance: real, delay: int, capacity1: nat, capacity2: nat,
    isActive: bool, toUpdate: bool, toAdd: bool, toRemove: bool, peers: seq<Interface>)

  /** What the positions give for a link: its length, and the capacities of its budget there. */
  datatype Measure = Measure(distance: real, budget1: nat, budget2: nat)

  const SPEED_OF_LIGHT: real := 299_792_458.0

  /** int(), which truncates towards zero. */
  function Truncate(x: real): int {
    if x >= 0.0 then x.Floor else -(-x).Floor
  }

  function DelayOf(distance: real): int {
    Truncate(distance / SPEED_OF_LIGHT * 1000.0)
  }

  /** The whole milliseconds light takes for a distance. */
  lemma DelayExact(distance: real, ms: nat)
    requires distance >= 0.0
    ensures DelayOf(distance) == ms
            <==> ms as real * 299_792_458.0 <= distance * 1000.0 < (ms + 1) as real * 299_792_458.0
  {
  }

  function CapacitiesOf(l: LinkState, m: Measure): (nat, nat) {
    if l.useBudget && l.kind.GroundStationLink? then (m.budget1, m.budget2) else (l.defaultCapacity, l.defaultCapacity)
  }

  /** A link as constructed. */
  function NewLink(source: NodeRef, target: NodeRef, kind: LinkType, useBudget: bool, defaultCapacity: nat,
                   isActive: bool, m: Measure): LinkState
  {
    var l := LinkState(source, target, kind, useBudget, defaultCapacity, m.distance, DelayOf(m.distance), 0, 0,
                       isActive, false, false, false, []);
    l.(capacity1 := CapacitiesOf(l, m).0, capacity2 := CapacitiesOf(l, m).1)
  }

  function CapacitiesRefreshed(l: LinkState, m: Measure): LinkState {
    var (c1, c2) := CapacitiesOf(l, m);
    l.(capacity1 := c1, capacity2 := c2, toUpdate := l.toUpdate || c1 != l.capacity1 || c2 != l.capacity2)
  }

  /** update_distance_and_delay. */
  function Moved(l: LinkState, m: Measure): LinkState {
    var delay := DelayOf(m.distance);
    var moved := l.(distance := m.distance, delay := delay, toUpdate := l.toUpdate || delay != l.delay);
    if m.distance != l.distance && l.useBudget && l.kind.GroundStationLink?
    then CapacitiesRefreshed(moved, m) else moved
  }

  /** What the launcher sends for a link: a delay of at least 1 ms, and per end its capacity or a fallback. */
  datatype Qos = Qos(delay: int, rate1: nat, rate2: nat)

  function Request(l: LinkState, fallback: nat): Qos {
    Qos(if l.delay < 1 then 1 else l.delay,
        if l.capacity1 != 0 then l.capacity1 else fallback, if l.capacity2 != 0 then l.capacity2 else fallback)
  }

  /** Moving never drops a mark, and if what would be sent changed, the link is marked. */
  lemma MovedMarksChanges(l: LinkState, m: Measure, fallback: nat)
    ensures l.toUpdate ==> Moved(l, m).toUpdate
    ensures !Moved(l, m).toUpdate ==>
              && Moved(l, m).delay == l.delay && Moved(l, m).capacity1 == l.capacity1
                  && Moved(l, m).capacity2 == l.capacity2
              && Request(Moved(l, m), fallback) == Request(l, fallback)
    ensures Moved(l, m).delay == DelayOf(m.distance) && Moved(l, m).distance == m.distance
    ensures Moved(l, m).isActive == l.isActive && Moved(l, m).peers == l.peers
  {
  }

  /** A movement marks a link exactly if its delay or a capacity became another one; a mark stays. */
  lemma MarkedExact(l: LinkState, m: Measure)
    ensures var l' := Moved(l, m);
            l'.toUpdate
            <==> l.toUpdate || l'.delay != l.delay || l'.capacity1 != l.capacity1 || l'.capacity2 != l.capacity2
  {
  }

  // ---- Runs of movements ----

  function MovedAll(l: LinkState, ms: seq<Measure>): LinkState {
    if ms == [] then l else Moved(MovedAll(l, ms[..|ms| - 1]), ms[|ms| - 1])
  }

  /** Over any run of movements a link that is still unmarked asks for what it asked for at first, and its
      distance and delay are those of the last measure. */
  lemma {:induction false} UnmarkedMeansUnchanged(l: LinkState, ms: seq<Measure>, fallback: nat)
    ensures !MovedAll(l, ms).toUpdate ==> Request(MovedAll(l, ms), fallback) == Request(l, fallback) && !l.toUpdate
    ensures ms != [] ==>
              && MovedAll(l, ms).distance == ms[|ms| - 1].distance
              && MovedAll(l, ms).delay == DelayOf(ms[|ms| - 1].distance)
  {
    if ms != [] {
      UnmarkedMeansUnchanged(l, ms[..|ms| - 1], fallback);
      MovedMarksChanges(MovedAll(l, ms[..|ms| - 1]), ms[|ms| - 1], fallback);
    }
  }

  /** The capacities are those of a measure. */
  predicate Current(l: LinkState, m: Measure) {
    (l.capacity1, l.capacity2) == CapacitiesOf(l, m)
  }

  /** Exactly when a movement leaves the capacities current: the budget is looked at only if the distance
      changed. */
  lemma MovedCurrent(l: LinkState, m: Measure)
    ensures Current(Moved(l, m), m)
            <==> (l.useBudget && l.kind.GroundStationLink? && m.distance != l.distance) || Current(l, m)
  {
  }

  /** Measures of equal distance have equal budgets. */
  predicate Consistent(ms: seq<Measure>) {
    forall i, j | 0 <= i < j < |ms| :: ms[i].distance == ms[j].distance ==> ms[i] == ms[j]
  }

  /** While the budget is a matter of the distance, the capacities follow every movement. */
  lemma {:induction false} CapacitiesFollow(l: LinkState, ms: seq<Measure>)
    requires ms != [] && l.distance == ms[0].distance && Current(l, ms[0]) && Consistent(ms)
    ensures Current(MovedAll(l, ms[1..]), ms[|ms| - 1])
  {
    if |ms| > 1 {
      var k := |ms| - 1;
      CapacitiesFollow(l, ms[..k]);
      assert ms[..k][1..] == ms[1..][..k - 1];
      var before := MovedAll(l, ms[..k][1..]);
      UnmarkedMeansUnchanged(l, ms[..k][1..], 0);
      assert before.distance == ms[k - 1].distance;
      assert Consistent(ms[..k]);
      SameTerms(l, ms[..k][1..]);
      MovedCurrent(before, ms[k]);
    }
  }

  lemma {:induction false} SameTerms(l: LinkState, ms: seq<Measure>)
    ensures MovedAll(l, ms).useBudget == l.useBudget && MovedAll(l, ms).kind == l.kind
    ensures MovedAll(l, ms).defaultCapacity == l.defaultCapacity
  {
    if ms != [] {
      SameTerms(l, ms[..|ms| - 1]);
    }
  }

  class Link {
    const source: NodeRef
    const target: NodeRef
    const kind: LinkType
    const useBudget: bool
    const defaultCapacity: nat
    var distance: real
    var delay: int
    var capacity1: nat
    var capacity2: nat
    var isActive: bool
    var toUpdate: bool
    var toAdd: bool
    var toRemove: bool
    var peers: seq<Interface>

    function Value(): LinkState
      reads this
    {
      LinkState(source, target, kind, useBudget, defaultCapacity, distance, delay, capacity1, capacity2,
                isActive, toUpdate, toAdd, toRemove, peers)
    }

    constructor (source: NodeRef, target: NodeRef, kind: LinkType, useBudget: bool, defaultCapacity: nat,
                 isActive: bool, m: Measure)
      ensures Value() == NewLink(source, target, kind, useBudget, defaultCapacity, isActive, m)
    {
      this.source, this.target, this.kind := source, target, kind;
      this.useBudget, this.defaultCapacity := useBudget, defaultCapacity;
      distance, delay := m.distance, DelayOf(m.distance);
      this.isActive, toUpdate, toAdd, toRemove, peers := isActive, false, false, false, [];
      capacity1, capacity2 := 0, 0;
      new;
      UpdateLinkCapacities(m);
    }

    method UpdateLinkCapacities(m: Measure)
      modifies this`capacity1, this`capacity2
      ensures (capacity1, capacity2) == old(CapacitiesOf(Value(), m))
    {
      if useBudget && kind.GroundStationLink? {
        capacity1, capacity2 := m.budget1, m.budget2;
      } else {
        capacity1, capacity2 := defaultCapacity, defaultCapacity;
      }
    }

    method RefreshLinkCapacities(m: Measure) returns (changed: bool)
      modifies this
      ensures Value() == CapacitiesRefreshed(old(Value()), m)
      ensures changed <==> (capacity1, capacity2) != (old(capacity1), old(capacity2))
    {
      var before := (capacity1, capacity2);
      UpdateLinkCapacities(m);
      changed := (capacity1, capacity2) != before;
      if changed {
        toUpdate := true;
      }
    }

    method UpdateDistanceAndDelay(m: Measure)
      modifies this
      ensures Value() == Moved(old(Value()), m)
    {
      var newDelay := DelayOf(m.distance);
      var distanceChanged := m.distance != distance;
      distance := m.distance;
      if newDelay != delay {
        delay := newDelay;
        toUpdate := true;
      }
      if distanceChanged && useBudget && kind.GroundStationLink? {
        var _ := RefreshLinkCapacities(m);
      }
    }
  }
}

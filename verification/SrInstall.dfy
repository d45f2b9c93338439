/** Sending only the lines that changed (satgonetem/routing/srmpls_daemon.py:911-920, 966-975, 1021-1030). */
module SrInstall {
  import opened Wrappers
  import opened LabelForwarding

  predicate DistinctKeys(lines: seq<Line>) {
    forall i, j | 0 <= i < j < |lines| :: lines[i].key != lines[j].key
  }

  /** What the kernel of a node holds, and the lines one writer remembers having sent. */
  datatype State = State(kernel: Kernel, remembered: seq<Line>)

  function Changed(remembered: seq<Line>, wanted: seq<Line>): seq<Line> {
    if wanted == [] then []
    else
      var n := |wanted| - 1;
      Changed(remembered, wanted[..n]) + if wanted[n] !in remembered then [wanted[n]] else []
  }

  /** Only new lines are sent; when there are none the remembered list stays as it is. */
  function Install(s: State, wanted: seq<Line>): State {
    var changed := Changed(s.remembered, wanted);
    if changed == [] then s else State(Exec(s.kernel, changed), wanted)
  }

  lemma {:induction false} ChangedMembers(remembered: seq<Line>, wanted: seq<Line>)
    ensures forall line :: line in Changed(remembered, wanted) <==> line in wanted && line !in remembered
    ensures DistinctKeys(wanted) ==> DistinctKeys(Changed(remembered, wanted))
  {
    if wanted != [] {
      var n := |wanted| - 1;
      ChangedMembers(remembered, wanted[..n]);
      assert wanted == wanted[..n] + [wanted[n]];
      if DistinctKeys(wanted) {
        assert DistinctKeys(wanted[..n]);
        forall i | 0 <= i < |Changed(remembered, wanted[..n])|
          ensures Changed(remembered, wanted[..n])[i].key != wanted[n].key
        {
          assert Changed(remembered, wanted[..n])[i] in wanted[..n];
        }
      }
    }
  }

  lemma {:induction false} NothingChanged(remembered: seq<Line>, wanted: seq<Line>)
    requires forall line | line in wanted :: line in remembered
    ensures Changed(remembered, wanted) == []
  {
    if wanted != [] {
      NothingChanged(remembered, wanted[..|wanted| - 1]);
    }
  }

  lemma SameKeySameLine(lines: seq<Line>, a: Line, b: Line)
    requires DistinctKeys(lines) && a in lines && b in lines && a.key == b.key
    ensures a == b
  {
    var i :| 0 <= i < |lines| && lines[i] == a;
    var j :| 0 <= j < |lines| && lines[j] == b;
  }

  /** Replacing lines with distinct keys sets those keys and no other. */
  lemma {:induction false} ExecHolds(kernel: Kernel, lines: seq<Line>)
    ensures DistinctKeys(lines) ==> Holds(Exec(kernel, lines), lines)
    ensures forall key | forall i | 0 <= i < |lines| :: lines[i].key != key ::
              (key in Exec(kernel, lines) <==> key in kernel)
                  && (key in kernel ==> Exec(kernel, lines)[key] == kernel[key])
  {
    if lines != [] {
      var n := |lines| - 1;
      ExecHolds(kernel, lines[..n]);
      if DistinctKeys(lines) {
        assert DistinctKeys(lines[..n]);
        forall i | 0 <= i < n ensures Has(Exec(kernel, lines), lines[i]) {
          assert lines[i] == lines[..n][i];
        }
      }
      forall key | forall i | 0 <= i < |lines| :: lines[i].key != key
        ensures (key in Exec(kernel, lines) <==> key in kernel)
                  && (key in kernel ==> Exec(kernel, lines)[key] == kernel[key])
      {
        assert forall i | 0 <= i < n :: lines[..n][i].key != key;
      }
    }
  }

  predicate Mentions(lines: seq<Line>, key: Key) {
    exists i :: 0 <= i < |lines| && lines[i].key == key
  }

  /** What a line sent or not sent is after the sending. */
  lemma ExecHas(kernel: Kernel, sent: seq<Line>, line: Line)
    requires DistinctKeys(sent)
    ensures Has(Exec(kernel, sent), line) <==> line in sent || (!Mentions(sent, line.key) && Has(kernel, line))
  {
    ExecHolds(kernel, sent);
    if Mentions(sent, line.key) {
      var i :| 0 <= i < |sent| && sent[i].key == line.key;
      assert Has(Exec(kernel, sent), sent[i]);
      if line in sent {
        SameKeySameLine(sent, line, sent[i]);
      }
    }
  }

  /** Two lists that say the same wherever they speak of the same key. */
  predicate Agree(a: seq<Line>, b: seq<Line>) {
    forall i, j | 0 <= i < |a| && 0 <= j < |b| :: a[i].key == b[j].key ==> a[i] == b[j]
  }

  /** Exactly when sending the changes is enough for a wanted line: if it is not sent again, because it is
      remembered, it must still be in the kernel. */
  lemma InstallExact(s: State, wanted: seq<Line>)
    requires DistinctKeys(wanted)
    ensures forall line | line in wanted ::
              Has(Install(s, wanted).kernel, line) <==> (line in s.remembered ==> Has(s.kernel, line))
    ensures Holds(Install(s, wanted).kernel, wanted) <==> forall line | line in wanted
              && line in s.remembered :: Has(s.kernel, line)
  {
    var changed := Changed(s.remembered, wanted);
    ChangedMembers(s.remembered, wanted);
    ExecHolds(s.kernel, changed);
    forall line | line in wanted
      ensures Has(Install(s, wanted).kernel, line) <==> (line in s.remembered ==> Has(s.kernel, line))
    {
      if line in s.remembered {
        forall j | 0 <= j < |changed| ensures changed[j].key != line.key {
          assert changed[j] in changed;
          if changed[j].key == line.key {
            SameKeySameLine(wanted, changed[j], line);
          }
        }
      } else {
        assert line in changed;
      }
    }
  }

  // ---- Runs of one writer ----

  /** One rebuild, after the devices towards some peers went; a restart forgets first; a refresh sends every
      line (_update_sr_route_for_source). */
  datatype Event = Tick(lost: set<nat>, wanted: seq<Line>) | Restart(wanted: seq<Line>) | Refresh(wanted: seq<Line>)

  predicate Through(line: Line, lost: set<nat>) {
    line.action.Via? && line.action.peer in lost
  }

  /** The kernel drops the routes over a device that is removed. */
  function Purge(kernel: Kernel, lost: set<nat>): Kernel {
    map key | key in kernel && !Through(Line(key, kernel[key]), lost) :: kernel[key]
  }

  function Next(s: State, e: Event): State {
    match e
    case Tick(lost, wanted) => Install(State(Purge(s.kernel, lost), s.remembered), wanted)
    case Restart(wanted) => Install(State(s.kernel, []), wanted)
    case Refresh(wanted) => if wanted == [] then s else State(Exec(s.kernel, wanted), wanted)
  }

  function Run(s: State, events: seq<Event>): State {
    if events == [] then s else Next(Run(s, events[..|events| - 1]), events[|events| - 1])
  }

  /** Of the lines that will be remembered after the tick, none was remembered before and is lost in it. */
  predicate Harmless(remembered: seq<Line>, e: Event) {
    e.Tick? ==>
      forall line | line in (if Changed(remembered, e.wanted) == [] then remembered else e.wanted) ::
        line in remembered ==> !Through(line, e.lost)
  }

  /** The remembered lines are all in the kernel after an event exactly when the event is harmless. */
  lemma NextExact(s: State, e: Event)
    requires Holds(s.kernel, s.remembered) && DistinctKeys(e.wanted)
    ensures var s' := Next(s, e);
            && (Holds(s'.kernel, s'.remembered) <==> Harmless(s.remembered, e))
            && (Harmless(s.remembered, e) ==> Holds(s'.kernel, e.wanted))
  {
    var kept := match e case Tick(lost, _) => State(Purge(s.kernel, lost), s.remembered)
                        case Restart(_) => State(s.kernel, []) case Refresh(_) => s;
    forall line | line in s.remembered && e.Tick?
      ensures Has(kept.kernel, line) <==> !Through(line, e.lost)
    {
      assert Has(s.kernel, line);
    }
    ChangedMembers(kept.remembered, e.wanted);
    ExecHolds(s.kernel, e.wanted);
    InstallExact(kept, e.wanted);
  }

  /** Any run of harmless events, on any node, leaves what was wanted last in the kernel. */
  lemma {:induction false} EveryInstallRun(s: State, events: seq<Event>)
    requires Holds(s.kernel, s.remembered)
    requires forall i | 0 <= i < |events| :: DistinctKeys(events[i].wanted)
              && Harmless(Run(s, events[..i]).remembered, events[i])
    ensures Holds(Run(s, events).kernel, Run(s, events).remembered)
    ensures events != [] ==> Holds(Run(s, events).kernel, events[|events| - 1].wanted)
  {
    if events != [] {
      var n := |events| - 1;
      forall i | 0 <= i < n
        ensures DistinctKeys(events[..n][i].wanted) && Harmless(Run(s, events[..n][..i]).remembered, events[..n][i])
      {
        assert events[..n][..i] == events[..i];
      }
      EveryInstallRun(s, events[..n]);
      NextExact(Run(s, events[..n]), events[n]);
    }
  }

  /** A run in which no device goes is harmless. */
  lemma QuietRun(s: State, events: seq<Event>)
    requires Holds(s.kernel, s.remembered)
    requires forall i | 0 <= i < |events| ::
               DistinctKeys(events[i].wanted) && (events[i].Tick? ==> events[i].lost == {})
    ensures events != [] ==> Holds(Run(s, events).kernel, events[|events| - 1].wanted)
  {
    EveryInstallRun(s, events);
  }

  /** Any link that goes while nothing else changes and then comes back with the same addresses stays without
      its line: the line was remembered all along and is not sent again. */
  lemma FlapIsForgotten(s: State, peer: nat, wanted: seq<Line>, without: seq<Line>, line: Line)
    requires Holds(s.kernel, s.remembered) && s.remembered == wanted && DistinctKeys(wanted)
    requires line in wanted && Through(line, {peer})
    requires forall l :: l in without <==> l in wanted && !Through(l, {peer})
    ensures var down := Next(s, Tick({peer}, without));
            var up := Next(down, Tick({}, wanted));
            && Holds(down.kernel, without) && up.remembered == wanted && line.key !in up.kernel
  {
    NothingChanged(wanted, without);
    NothingChanged(wanted, wanted);
    assert Has(s.kernel, line);
    forall i | 0 <= i < |without| ensures Has(Purge(s.kernel, {peer}), without[i]) {
      assert without[i] in wanted;
      assert Has(s.kernel, without[i]);
    }
  }
}

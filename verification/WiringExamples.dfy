/** Runs on which a receipt key is prompted twice in one life of the process. */
module WiringExamples {
  import opened Prelude
  import opened ReceiptKeys
  import opened Delivery
  import opened ProofAdapter
  import opened Wiring
  import opened WiringRuns
  import D = DeliveryRuns
  import DeliverySteps

  /** The core, bound and idle, with these events pending and none delivered. */
  ghost predicate Resting(sys: D.System, pending: seq<Event>) {
    && sys.core.active == Some(1) && sys.core.status == Some("idle") && sys.core.delivered == {}
    && sys.core.pending == pending && (sys.air != [] ==> sys.air[0].flight.generation == sys.core.generation)
  }

  lemma IngestLaunches(sys: D.System, pending: seq<Event>, e: Event)
    requires D.Inv(sys) && Resting(sys, pending) && sys.air == [] && e.version == 1 && Lookup(pending, e.id).None?
    ensures var t := D.Next(sys, D.DoIngest(e));
            Resting(t, pending + [e]) && t.air != [] && t.air[0].flight.events == pending + [e]
  {
    D.IngestNewIs(sys, e);
  }

  lemma EnterLaunches(steps: seq<Step>, pending: seq<Event>, e: Event) returns (more: seq<Step>)
    requires var s := Run(steps);
             && Resting(s.sys, pending) && s.box.phase.Idle?
             && e in s.checked && e.version == 1 && Lookup(pending, e.id).None?
    ensures more == steps + [Enter(e)]
    ensures var s, t := Run(steps), Run(more);
            && Resting(t.sys, pending + [e]) && t.log == s.log
            && t.box == s.box.(batch := pending + [e], targets := [], phase := Entered)
  {
    more := steps + [Enter(e)];
    RunAppend(steps, Enter(e));
    Reachable(steps);
    IngestLaunches(Run(steps).sys, pending, e);
  }

  lemma RejectionRests(steps: seq<Step>, pending: seq<Event>) returns (more: seq<Step>)
    requires var s := Run(steps); Resting(s.sys, pending) && s.box.phase == Returned(false)
    ensures more == steps + [Advance(true)]
    ensures var s, t := Run(steps), Run(more);
            Resting(t.sys, pending) && t.log == s.log && t.box == s.box.(batch := [], targets := [], phase := Idle)
  {
    more := steps + [Advance(true)];
    RunAppend(steps, Advance(true));
    Reachable(steps);
    RejectedCore(Run(steps).sys, pending);
  }

  lemma RejectedCore(sys: D.System, pending: seq<Event>)
    requires DeliverySteps.Ready(sys) && Resting(sys, pending) && sys.air != []
    ensures Resting(DeliverySteps.Closed(sys, false), pending)
  {
    D.AdapterKeeps(sys, 0, false);
    D.Rejected(D.Next(sys, D.AdapterReturns(0, false)));
  }

  lemma CheckRests(steps: seq<Step>, id: string) returns (more: seq<Step>)
    requires !(MAIL_PREFIX <= id) && !IsPrompted(Run(steps).box.ledger, ControlKey(id))
    ensures more == steps + [CheckControl(1, id, "", 0.0)]
    ensures var s, t := Run(steps), Run(more);
            t.sys == s.sys && t.log == s.log && t.box == s.box && ControlEvent(1, id, "", 0.0) in t.checked
  {
    more := steps + [CheckControl(1, id, "", 0.0)];
    RunAppend(steps, CheckControl(1, id, "", 0.0));
  }

  lemma AdvanceOnce(steps: seq<Step>, ok: bool) returns (more: seq<Step>)
    requires !Run(steps).box.phase.Returned?
    ensures more == steps + [Advance(ok)]
    ensures var s, t := Run(steps), Run(more);
            && t.sys == s.sys && t.box == Micro(s.box, ok)
            && t.log == if s.box.phase.Calling? && ok then s.log + s.box.targets else s.log
  {
    more := steps + [Advance(ok)];
    RunAppend(steps, Advance(ok));
  }

  // ---------------------------------------------------------------- the run

  function Plain(id: string): Event {
    ControlEvent(1, id, "", 0.0)
  }

  lemma OneTarget(a: Event)
    requires Target(a).Some?
    ensures Targets([a]) == Some([Target(a).value])
    ensures Awaiting(map[], [a], [Target(a).value]) == map[a.id := [Target(a).value]]
    ensures forall id :: Lookup([a], id).Some? <==> id == a.id
  {
    var none: seq<Event> := [];
    assert [a][..0] == none && Targets(none) == Some([]);
    assert [] + [Target(a).value] == [Target(a).value];
  }

  lemma TwoTargets(a: Event, b: Event)
    requires Target(a).Some? && Target(b).Some?
    ensures Targets([a, b]) == Some([Target(a).value, Target(b).value])
  {
    OneTarget(a);
    assert [a, b][..1] == [a];
    assert [Target(a).value] + [Target(b).value] == [Target(a).value, Target(b).value];
  }

  lemma FirstAttempted(steps: seq<Step>, a: Event, k: Key) returns (more: seq<Step>)
    requires Target(a) == Some(k)
    requires Run(steps).box == Box(Ledger({}, {}), map[], {}, [a], [], Entered)
    ensures more == steps + [Advance(true), Advance(true), Advance(true)]
    ensures var s, t := Run(steps), Run(more);
            && t.sys == s.sys && t.log == s.log
            && t.box == Box(Ledger({k}, {}), map[], {}, [a], [k], Calling)
  {
    OneTarget(a);
    var one := AdvanceOnce(steps, true);
    FirstMicro(Run(steps).box, a, k);
    var two := AdvanceOnce(one, true);
    more := AdvanceOnce(two, true);
    ThreeJoined(steps);
  }

  lemma FirstMicro(b: Box, a: Event, k: Key)
    requires b == Box(Ledger({}, {}), map[], {}, [a], [], Entered) && Targets([a]) == Some([k])
    ensures Micro(b, true) == Box(Ledger({}, {}), map[], {}, [a], [k], Attempting(0))
  {
    assert a in [a];
  }

  lemma ThreeJoined(steps: seq<Step>)
    ensures steps + [Advance(true)] + [Advance(true)] + [Advance(true)] ==
            steps + [Advance(true), Advance(true), Advance(true)]
  {
  }

  /** The only event is accepted, */
  lemma FirstAccepted(steps: seq<Step>, a: Event, k: Key) returns (more: seq<Step>)
    requires Target(a) == Some(k)
    requires Run(steps).box == Box(Ledger({}, {}), map[], {}, [a], [], Entered)
    ensures more == steps + [Advance(true), Advance(true), Advance(true), Advance(true)]
    ensures var s, t := Run(steps), Run(more);
            && t.sys == s.sys && t.log == s.log + [k]
            && t.box == Box(Ledger({k}, {}), map[], {}, [a], [k], Marking(0, true))
  {
    more := FirstAttempted(steps, a, k);
    more := AdvanceOnce(more, true);
  }

  /** but its delivered mark fails to be written. */
  lemma FirstUnmarked(steps: seq<Step>, a: Event, k: Key) returns (more: seq<Step>)
    requires Target(a) == Some(k)
    requires Run(steps).box == Box(Ledger({k}, {}), map[], {}, [a], [k], Marking(0, true))
    ensures more == steps + [Advance(false), Advance(true)]
    ensures var s, t := Run(steps), Run(more);
            && t.sys == s.sys && t.log == s.log
            && t.box == Box(Ledger({k}, {}), map[a.id := [k]], {}, [a], [k], Returned(false))
  {
    OneTarget(a);
    more := AdvanceOnce(steps, false);
    more := AdvanceOnce(more, true);
  }

  lemma SecondAttempted(steps: seq<Step>, a: Event, b: Event) returns (more: seq<Step>)
    requires Target(a).Some? && Target(b).Some? && b.id != a.id
    requires Run(steps).box.phase == Entered && Run(steps).box.batch == [a, b]
             && b.id !in Run(steps).box.pendingMarks
    ensures more == steps + [Advance(true), Advance(true), Advance(true)]
    ensures Run(more).log == Run(steps).log
    ensures Run(more).box.phase == Attempting(2) && Run(more).box.targets == [Target(a).value, Target(b).value]
  {
    TwoTargets(a, b);
    var one := AdvanceOnce(steps, true);
    assert b in [a, b];
    assert Run(one).box.phase == Attempting(0) && |Run(one).box.targets| == 2;
    var two := AdvanceOnce(one, true);
    more := AdvanceOnce(two, true);
    ThreeJoined(steps);
  }

  /** The retry finds another event in the batch as well and prompts both. */
  lemma SecondDelivery(steps: seq<Step>, a: Event, b: Event) returns (more: seq<Step>)
    requires Target(a).Some? && Target(b).Some? && b.id != a.id
    requires Run(steps).box.phase == Entered && Run(steps).box.batch == [a, b]
             && b.id !in Run(steps).box.pendingMarks
    ensures more == steps + [Advance(true), Advance(true), Advance(true)] + [Advance(true), Advance(true)]
    ensures Run(more).log == Run(steps).log + [Target(a).value, Target(b).value]
  {
    var three := SecondAttempted(steps, a, b);
    more := CalledAndAccepted(three, [Target(a).value, Target(b).value]);
  }

  lemma CalledAndAccepted(steps: seq<Step>, targets: seq<Key>) returns (more: seq<Step>)
    requires Run(steps).box.phase == Attempting(|targets|) && Run(steps).box.targets == targets
    ensures more == steps + [Advance(true), Advance(true)] && Run(more).log == Run(steps).log + targets
  {
    var one := AdvanceOnce(steps, true);
    more := AdvanceOnce(one, true);
    TwoJoined(steps);
  }

  lemma TwoJoined(steps: seq<Step>)
    ensures steps + [Advance(true)] + [Advance(true)] == steps + [Advance(true), Advance(true)]
  {
  }

  lemma Announced() returns (steps: seq<Step>)
    ensures steps == [Announce(1), Status("idle")]
    ensures var s := Run(steps); Resting(s.sys, []) && s.box == INITIAL.box && s.log == []
  {
    var none: seq<Step> := [];
    var one := none + [Announce(1)];
    RunAppend(none, Announce(1));
    assert Run(one).sys.core.active == Some(1) && Run(one).sys.core.pending == [] && Run(one).sys.air == [];
    steps := one + [Status("idle")];
    RunAppend(one, Status("idle"));
  }

  lemma FirstEntered(a: Event) returns (steps: seq<Step>)
    requires a == Plain("a")
    ensures steps == [Announce(1), Status("idle"), CheckControl(1, "a", "", 0.0), Enter(a)]
    ensures var s := Run(steps);
            Resting(s.sys, [a]) && s.log == [] && s.box == Box(Ledger({}, {}), map[], {}, [a], [], Entered)
  {
    steps := Announced();
    steps := CheckRests(steps, "a");
    steps := EnterLaunches(steps, [], a);
    assert [] + [a] == [a];
  }

  /** The delivered mark of the first event fails to be written, and the event is requeued. */
  function FirstSteps(a: Event): seq<Step> {
    [Announce(1), Status("idle"), CheckControl(1, "a", "", 0.0), Enter(a),
     Advance(true), Advance(true), Advance(true), Advance(true), Advance(false), Advance(true), Advance(true)]
  }

  /** Then another event arrives, and the retry finds both. */
  function SecondSteps(b: Event): seq<Step> {
    [CheckControl(1, "b", "", 0.0), Enter(b), Advance(true), Advance(true), Advance(true), Advance(true), Advance(true)]
  }

  lemma FirstJoined(a: Event, entered: seq<Step>)
    requires entered == [Announce(1), Status("idle"), CheckControl(1, "a", "", 0.0), Enter(a)]
    ensures entered + [Advance(true), Advance(true), Advance(true), Advance(true)] + [Advance(false), Advance(true)]
            + [Advance(true)] == FirstSteps(a)
  {
  }

  lemma SecondJoined(b: Event, half: seq<Step>)
    ensures half + [CheckControl(1, "b", "", 0.0)] + [Enter(b)] + [Advance(true), Advance(true), Advance(true)]
            + [Advance(true), Advance(true)] == half + SecondSteps(b)
  {
  }

  lemma FirstHalf(a: Event) returns (steps: seq<Step>)
    requires a == Plain("a")
    ensures steps == FirstSteps(a)
    ensures var s := Run(steps);
            && Resting(s.sys, [a]) && s.log == [ControlKey("a")]
            && s.box == Box(Ledger({ControlKey("a")}, {}), map["a" := [ControlKey("a")]], {}, [], [], Idle)
  {
    steps := FirstEntered(a);
    FirstJoined(a, steps);
    steps := FirstAccepted(steps, a, ControlKey("a"));
    steps := FirstUnmarked(steps, a, ControlKey("a"));
    steps := RejectionRests(steps, [a]);
  }

  lemma SecondHalf(half: seq<Step>, a: Event, b: Event) returns (steps: seq<Step>)
    requires b == Plain("b") && Target(a).Some? && a.id != "b" && Lookup([a], "b").None?
    requires var s := Run(half);
             && Resting(s.sys, [a])
             && s.box == Box(Ledger({Target(a).value}, {}), map[a.id := [Target(a).value]], {}, [], [], Idle)
             && Target(a).value != ControlKey("b")
    ensures steps == half + SecondSteps(b)
    ensures Run(steps).log == Run(half).log + [Target(a).value, ControlKey("b")]
  {
    SecondJoined(b, half);
    steps := CheckRests(half, "b");
    steps := EnterLaunches(steps, [a], b);
    assert [a] + [b] == [a, b];
    steps := SecondDelivery(steps, a, b);
  }

  /** One failed write of a delivered mark, and a new event before the retry: the adapter prompts the
      first event again, although only its mark was due. */
  lemma MixedBatchPromptsTwice() returns (first: seq<Step>, steps: seq<Step>)
    ensures first == FirstSteps(Plain("a")) && steps == first + SecondSteps(Plain("b"))
    ensures Run(first).log == [ControlKey("a")]
    ensures Run(steps).log == [ControlKey("a"), ControlKey("a"), ControlKey("b")] && !NoDup(Run(steps).log)
  {
    var a, b := Plain("a"), Plain("b");
    first := FirstHalf(a);
    OneTarget(a);
    steps := SecondHalf(first, a, b);
    assert [ControlKey("a")] + [ControlKey("a"), ControlKey("b")] ==
           [ControlKey("a"), ControlKey("a"), ControlKey("b")];
    Repeats(Run(steps).log);
  }

  lemma Repeats(log: seq<Key>)
    requires |log| >= 2 && log[0] == log[1]
    ensures !NoDup(log)
  {
  }

  // ---------------------------------------------------------------- a switch during a call

  /** The event is prompted, but the binding switches before the call returns. */
  function SwitchSteps(a: Event): seq<Step> {
    [Announce(1), Status("idle"), CheckControl(1, "a", "", 0.0), Enter(a), Advance(true), Advance(true), Advance(true)]
    + LateSteps()
  }

  function LateSteps(): seq<Step> {
    [Announce(2), Advance(true), Advance(true), Advance(true), Advance(true)]
  }

  /** The event was handed to the new binding, where it is delivered again. */
  function AgainSteps(): seq<Step> {
    [Status("idle"), Advance(true), Advance(true), Advance(true), Advance(true)]
  }

  lemma SwitchedAway(steps: seq<Step>, a: Event) returns (more: seq<Step>)
    requires var s := Run(steps); Resting(s.sys, [a]) && s.sys.air != []
    ensures more == steps + [Announce(2)]
    ensures var s, t := Run(steps), Run(more);
            && t.sys.core.active == Some(2) && t.sys.core.pending == [] && t.sys.core.delivered == {}
            && t.sys.air == s.sys.air && t.sys.air[0].flight.generation != t.sys.core.generation
            && t.box == s.box && t.log == s.log
  {
    more := steps + [Announce(2)];
    RunAppend(steps, Announce(2));
    Reachable(steps);
    DeliverySteps.BindStep(Run(steps).sys, 2);
  }

  /** The late acceptance is marked and reported, and the core takes the event back for the new binding. */
  lemma HandedBack(steps: seq<Step>, a: Event) returns (more: seq<Step>)
    requires var s := Run(steps);
             && s.box.phase == Returned(true) && s.box.batch == [a] && s.sys.air != []
             && s.sys.core.active == Some(2) && s.sys.core.pending == [] && s.sys.core.delivered == {}
             && s.sys.air[0].flight.generation != s.sys.core.generation
    ensures more == steps + [Advance(true)]
    ensures var s, t := Run(steps), Run(more);
            && t.sys.air == [] && t.sys.core.pending == [a.(version := 2)] && t.log == s.log
            && t.box == s.box.(batch := [], targets := [], phase := Idle)
  {
    more := steps + [Advance(true)];
    RunAppend(steps, Advance(true));
    Reachable(steps);
    DeliverySteps.ClosedIs(Run(steps).sys, true);
    LateFinish(Run(steps).sys.core, Run(steps).sys.air[0].flight, a);
  }

  lemma LateFinish(core: Scope, flight: InFlight, a: Event)
    requires core.active == Some(2) && core.pending == [] && core.delivered == {}
    requires flight.events == [a] && flight.generation != core.generation
    ensures Finish(core, flight, true).0.pending == [a.(version := 2)]
  {
    var none: seq<Event> := [];
    assert flight.events[..0] == none && none + [a.(version := 2)] == [a.(version := 2)];
    assert RequeueAll(none, {}, 2, none) == none && a.id !in Ids(none);
    assert RequeueAll(none, {}, 2, flight.events) == [a.(version := 2)];
  }

  lemma DeliveredAgain(steps: seq<Step>, e: Event, k: Key) returns (more: seq<Step>)
    requires var s := Run(steps);
             && s.sys.air == [] && s.sys.core.pending == [e] && s.box.phase.Idle?
             && s.box.pendingMarks == map[] && Target(e) == Some(k)
    ensures more == steps + AgainSteps() && Run(more).log == Run(steps).log + [k]
  {
    var entered := steps + [Status("idle")];
    RunAppend(steps, Status("idle"));
    Reachable(steps);
    DeliverySteps.IdleLaunches(Run(steps).sys);
    OneTarget(e);
    assert e in [e];
    var one := AdvanceOnce(entered, true);
    assert Run(one).box.phase == Attempting(0) && Run(one).box.targets == [k];
    var two := AdvanceOnce(one, true);
    var three := AdvanceOnce(two, true);
    more := AdvanceOnce(three, true);
    AgainJoined(steps);
  }

  lemma AgainJoined(steps: seq<Step>)
    ensures steps + [Status("idle")] + [Advance(true)] + [Advance(true)] + [Advance(true)] + [Advance(true)] ==
            steps + AgainSteps()
  {
  }

  lemma AcceptedLate(steps: seq<Step>, a: Event, k: Key) returns (more: seq<Step>)
    requires Run(steps).box == Box(Ledger({k}, {}), map[], {}, [a], [k], Calling)
    ensures more == steps + [Advance(true), Advance(true), Advance(true)]
    ensures var s, t := Run(steps), Run(more);
            && t.sys == s.sys && t.log == s.log + [k]
            && t.box.phase == Returned(true) && t.box.batch == [a] && t.box.pendingMarks == map[]
  {
    var one := AdvanceOnce(steps, true);
    var two := AdvanceOnce(one, true);
    assert Run(two).box.phase == Marking(1, true) && Run(two).box.targets == [k];
    more := AdvanceOnce(two, true);
    ThreeJoined(steps);
  }

  lemma LateJoined(steps: seq<Step>)
    ensures steps + [Announce(2)] + [Advance(true), Advance(true), Advance(true)] + [Advance(true)] ==
            steps + LateSteps()
  {
  }

  lemma PromptedLate(steps: seq<Step>, a: Event, k: Key) returns (more: seq<Step>)
    requires var s := Run(steps);
             Resting(s.sys, [a]) && s.sys.air != [] && s.box == Box(Ledger({k}, {}), map[], {}, [a], [k], Calling)
    ensures more == steps + LateSteps()
    ensures var s, t := Run(steps), Run(more);
            && t.sys.air == [] && t.sys.core.pending == [a.(version := 2)] && t.log == s.log + [k]
            && t.box.phase.Idle? && t.box.pendingMarks == map[]
  {
    var switched := SwitchedAway(steps, a);
    var accepted := AcceptedLate(switched, a, k);
    more := HandedBack(accepted, a);
    LateJoined(steps);
  }

  lemma FirstCalled(a: Event) returns (steps: seq<Step>)
    requires a == Plain("a")
    ensures steps == [Announce(1), Status("idle"), CheckControl(1, "a", "", 0.0), Enter(a),
                      Advance(true), Advance(true), Advance(true)]
    ensures var s := Run(steps);
            && Resting(s.sys, [a]) && s.sys.air != [] && s.log == []
            && s.box == Box(Ledger({ControlKey("a")}, {}), map[], {}, [a], [ControlKey("a")], Calling)
  {
    steps := FirstEntered(a);
    Reachable(steps);
    steps := FirstAttempted(steps, a, ControlKey("a"));
  }

  /** A switch while a call is under way: the call is accepted for the old binding, and the event is
      handed to the new one and prompted again, although every write succeeds. */
  lemma SwitchDuringCallPromptsTwice() returns (first: seq<Step>, steps: seq<Step>)
    ensures first == SwitchSteps(Plain("a")) && steps == first + AgainSteps()
    ensures Run(first).log == [ControlKey("a")] && Run(steps).log == [ControlKey("a"), ControlKey("a")]
  {
    first := FirstCalled(Plain("a"));
    first := PromptedLate(first, Plain("a"), ControlKey("a"));
    assert [] + [ControlKey("a")] == [ControlKey("a")];
    steps := DeliveredAgain(first, Plain("a").(version := 2), ControlKey("a"));
    assert [ControlKey("a")] + [ControlKey("a")] == [ControlKey("a"), ControlKey("a")];
  }
}

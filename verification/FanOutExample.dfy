/** A run on which a control event is marked as fanned out and nobody is ever prompted. */
module FanOutExample {
  import opened ReceiptKeys
  import opened Delivery
  import opened ProofAdapter
  import opened Wiring
  import opened WiringExamples
  import opened FanOut

  function Lifted(steps: seq<Wiring.Step>): seq<FanStep> {
    if steps == [] then [] else Lifted(steps[..|steps| - 1]) + [OnWire(steps[|steps| - 1])]
  }

  lemma {:induction false} LiftedRun(steps: seq<Wiring.Step>)
    ensures FanRun(false, Lifted(steps)) == Fan(Wiring.Run(steps), {}, {}, map[], [], {})
  {
    if steps != [] {
      LiftedRun(steps[..|steps| - 1]);
      FanAppend(false, Lifted(steps[..|steps| - 1]), OnWire(steps[|steps| - 1]));
    }
  }

  function CallingSteps(a: Event): seq<Wiring.Step> {
    [Announce(1), Status("idle"), CheckControl(1, "a", "", 0.0), Enter(a), Advance(true), Advance(true), Advance(true)]
  }

  function FanSteps(id: string): seq<FanStep> {
    [ReadMarker(id), Transport(id, true), MarkFanned(id, true)]
  }

  function LossSteps(): seq<FanStep> {
    [OnWire(Advance(false)), OnWire(Advance(true)), OnWire(Crash)]
  }

  /** The adapter holds `a` with its attempt written, waiting for the wrapped call. */
  lemma Waiting(a: Event) returns (steps: seq<Wiring.Step>)
    requires a == Plain("a")
    ensures steps == CallingSteps(a)
    ensures var s := Wiring.Run(steps);
            s.log == [] && s.box == Box(Ledger({ControlKey("a")}, {}), map[], {}, [a], [ControlKey("a")], Calling)
  {
    steps := FirstEntered(a);
    steps := FirstAttempted(steps, a, ControlKey("a"));
  }

  /** Meanwhile another thread fans the event out. */
  lemma FannedMeanwhile(steps: seq<FanStep>) returns (more: seq<FanStep>)
    requires var f := FanRun(false, steps);
             f.fanned == {} && IsPrompted(f.wire.box.ledger, ControlKey("a"))
    ensures more == steps + FanSteps("a")
    ensures var f, g := FanRun(false, steps), FanRun(false, more); g.wire == f.wire && "a" in g.fanned
  {
    var one := steps + [ReadMarker("a")];
    FanAppend(false, steps, ReadMarker("a"));
    assert !(MAIL_PREFIX <= "a");
    var two := one + [Transport("a", true)];
    FanAppend(false, one, Transport("a", true));
    more := two + [MarkFanned("a", true)];
    FanAppend(false, two, MarkFanned("a", true));
  }

  lemma ClearedBox(b: Box, a: Event, k: Key)
    requires b == Box(Ledger({k}, {}), map[], {}, [a], [k], Calling)
    ensures Micro(b, false) == b.(phase := Clearing(0)) && Micro(Micro(b, false), true).ledger == Ledger({}, {})
  {
  }

  /** Then the call is rejected, its marker cleared, and the process crashes. */
  lemma RejectedThenCrash(steps: seq<FanStep>, a: Event, k: Key) returns (more: seq<FanStep>)
    requires var f := FanRun(false, steps);
             && "a" in f.fanned && f.wire.log == []
             && f.wire.box == Box(Ledger({k}, {}), map[], {}, [a], [k], Calling)
    ensures more == steps + LossSteps()
    ensures var f := FanRun(false, more);
            && "a" in f.fanned && f.wire.log == [] && f.wire.box.ledger == Ledger({}, {})
            && f.wire.sys.core.pending == [] && f.wire.checked == multiset{}
  {
    ClearedBox(FanRun(false, steps).wire.box, a, k);
    var one := steps + [OnWire(Advance(false))];
    FanAppend(false, steps, OnWire(Advance(false)));
    var two := one + [OnWire(Advance(true))];
    FanAppend(false, one, OnWire(Advance(true)));
    more := two + [OnWire(Crash)];
    FanAppend(false, two, OnWire(Crash));
  }

  /** The fan-out takes an attempt marker for a prompt while the attempt is still under way: the event is
      marked although it was never accepted, bears no marker and is pending nowhere. */
  lemma FanOutOutrunsRejection() returns (wire: seq<Wiring.Step>, steps: seq<FanStep>)
    ensures wire == CallingSteps(Plain("a")) && steps == Lifted(wire) + FanSteps("a") + LossSteps()
    ensures var f := FanRun(false, steps);
            && "a" in f.fanned && f.wire.log == [] && !IsPrompted(f.wire.box.ledger, ControlKey("a"))
            && f.wire.sys.core.pending == [] && f.wire.checked == multiset{}
  {
    var a := Plain("a");
    wire := Waiting(a);
    LiftedRun(wire);
    var fan := FannedMeanwhile(Lifted(wire));
    steps := RejectedThenCrash(fan, a, ControlKey("a"));
  }
}

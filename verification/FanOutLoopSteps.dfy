/** The loop of the fan-out as a run of the steps of `FanOut`, so that all that is proved there holds of it. */
module FanOutLoopSteps {
  import opened Prelude
  import opened ReceiptKeys
  import opened Delivery
  import opened ProofAdapter
  import opened FanOut
  import opened FanOutLoop
  import Coordinator
  import D = DeliveryRuns
  import W = Wiring
  import WR = WiringRuns

  // ---------------------------------------------------------------- what a delivery proves

  /** Whatever counts as delivered is in the proof set. */
  ghost predicate ProofSound(b: Box) {
    && (b.phase.Recovering? && b.phase.good ==>
          forall k | 0 <= k < b.phase.i && k < |b.batch| :: b.batch[k].id in b.proof)
    && (b.phase == Returned(true) ==> Ids(b.batch) <= b.proof)
  }

  lemma MicroSound(b: Box, ok: bool)
    requires ProofSound(b)
    ensures ProofSound(Micro(b, ok)) && Micro(b, ok).batch == b.batch
  {
    if b.phase.Recovering? && b.phase.good && b.phase.i >= |b.batch| {
      forall e | e in b.batch ensures e.id in b.proof {
        var k :| 0 <= k < |b.batch| && b.batch[k] == e;
      }
      D.CoveredIds(b.batch, b.proof);
    }
  }

  lemma {:induction false} DriveSound(b: Box, oracle: nat -> bool, used: nat)
    requires ProofSound(b) && !b.phase.Idle?
    ensures var c := Drive(b, oracle, used).0; c.phase.Returned? && c.batch == b.batch && ProofSound(c)
    decreases Rank(b.phase), Remaining(b).0, Remaining(b).1
  {
    if !b.phase.Returned? {
      WR.MicroShrinks(b, oracle(used));
      MicroSound(b, oracle(used));
      DriveSound(Micro(b, oracle(used)), oracle, if Acts(b) then used + 1 else used);
    }
  }

  // ---------------------------------------------------------------- one event

  /** Core, adapter and sending half of the system are those of the desk, with no delivery under way. */
  ghost predicate AtDesk(f: Fan, d: Desk) {
    && f.wire.sys.core == d.core && f.wire.box == d.box && d.box.phase.Idle? && Shows(f, d.progress)
  }

  /** Steps of the wiring that neither crash nor pause. */
  ghost predicate Calm(wire: seq<W.Step>, on: seq<W.Step>) {
    wire <= on && forall i | |wire| <= i < |on| :: !on[i].Crash? && !on[i].Pause?
  }

  lemma {:induction false} CalmBeside(given: bool, steps: seq<FanStep>, wire: seq<W.Step>,
                                      on: seq<W.Step>)
    returns (more: seq<FanStep>)
    requires FanRun(given, steps).wire == W.Run(wire) && Calm(wire, on)
    ensures steps <= more
    ensures FanRun(given, more) == FanRun(given, steps).(wire := W.Run(on))
    decreases |on|
  {
    if |wire| == |on| {
      assert wire == on;
      more := steps;
    } else {
      var last := on[|on| - 1];
      var front := CalmBeside(given, steps, wire, on[..|on| - 1]);
      CalmOne(given, front, last);
      more := front + [OnWire(last)];
    }
  }

  lemma CalmOne(given: bool, steps: seq<FanStep>, step: W.Step)
    requires !step.Crash?
    ensures var f := FanRun(given, steps);
            FanRun(given, steps + [OnWire(step)]) == f.(wire := W.Next(f.wire, step))
  {
    FanAppend(given, steps, OnWire(step));
  }

  /** Does the wiring hold this core and this box at rest? */
  ghost predicate Holds(s: W.Wire, core: Scope, b: Box) {
    s.sys.core == core && s.box == b && b.phase.Idle?
  }

  lemma CheckedThenEntered(wire: seq<W.Step>, core: Scope, b: Box, e: Event) returns (on: seq<W.Step>)
    requires Holds(W.Run(wire), core, b) && core.active == Some(e.version)
    requires !(MAIL_PREFIX <= e.id) && !IsPrompted(b.ledger, ControlKey(e.id))
    requires e == W.ControlEvent(e.version, e.id, e.summary.text, e.created)
    ensures Calm(wire, on)
    ensures var (next, _, call) := Ingest(core, e);
            var t := W.Run(on);
            && t.sys.core == next
            && if call.None? then t.box == b
               else && t.sys.air == [D.Call(call.value, None)]
                    && t.box == b.(batch := call.value.events, targets := [], phase := Entered)
  {
    var s := W.Run(wire);
    WR.Reachable(wire);
    ControlLetIn(s, e);
    var check := W.CheckControl(e.version, e.id, e.summary.text, e.created);
    var t := W.Next(s, check);
    EnteredIs(t, e);
    WR.RunAppend(wire, check);
    WR.RunAppend(wire + [check], W.Enter(e));
    EnterIs(t, e);
    on := wire + [check] + [W.Enter(e)];
  }

  lemma EnterIs(s: W.Wire, e: Event)
    ensures W.Next(s, W.Enter(e)) == W.Through(s, W.Enter(e), D.DoIngest(e))
  {
  }

  lemma ControlLetIn(s: W.Wire, e: Event)
    requires !(MAIL_PREFIX <= e.id) && !IsPrompted(s.box.ledger, ControlKey(e.id))
    requires e == W.ControlEvent(e.version, e.id, e.summary.text, e.created)
    ensures var t := W.Next(s, W.CheckControl(e.version, e.id, e.summary.text, e.created));
            t.sys == s.sys && t.box == s.box && e in t.checked
  {
  }

  lemma EnteredIs(s: W.Wire, e: Event)
    requires D.Inv(s.sys) && s.sys.air == [] && s.box.phase.Idle? && e in s.checked
    ensures var (next, _, call) := Ingest(s.sys.core, e);
            var t := W.Through(s, W.Enter(e), D.DoIngest(e));
            && t.sys.core == next
            && if call.None? then t.box == s.box
               else && t.sys.air == [D.Call(call.value, None)]
                    && t.box == s.box.(batch := call.value.events, targets := [], phase := Entered)
  {
    if Ingest(s.sys.core, e).2.Some? { Coordinator.Launches(s.sys, e); }
  }

  /** The delivery under way runs to its end and the core takes its result. */
  lemma DeliveredThenFinished(wire: seq<W.Step>, call: InFlight, calls: nat -> bool, used: nat)
    returns (on: seq<W.Step>)
    requires var s := W.Run(wire); s.box.phase.Entered? && s.sys.air == [D.Call(call, None)]
    ensures Calm(wire, on)
    ensures var s, t := W.Run(wire), W.Run(on);
            var b := Drive(s.box, calls, used).0;
            && t.box == Resting(b)
            && t.sys.core == Finish(s.sys.core, call, b.phase == Returned(true)).0
  {
    var s := W.Run(wire);
    DriveSound(s.box, calls, used);
    var driven := WR.DeliverIsAdvances(wire, calls, used);
    on := driven + [W.Advance(true)];
    WR.RunAppend(driven, W.Advance(true));
    var accepted := W.Run(driven).box.phase.accepted;
    Coordinator.ReturnsAndFinishes(s.sys, call, accepted);
  }

  /** A batch that an ingest launches holds the event. */
  lemma LaunchedHolds(core: Scope, e: Event)
    requires Ingest(core, e).2.Some?
    ensures e.id in Ids(Ingest(core, e).2.value.events)
  {
    AppendFacts(core.pending, e);
  }

  /** With the event let in, everything up to the evidence. */
  lemma IngestIsSteps(given: bool, steps: seq<FanStep>, d: Desk, e: Event, calls: nat -> bool)
    returns (more: seq<FanStep>)
    requires AtDesk(FanRun(given, steps), d) && d.core.active == Some(e.version)
    requires !(MAIL_PREFIX <= e.id) && !IsPrompted(d.box.ledger, ControlKey(e.id))
    requires e == W.ControlEvent(e.version, e.id, e.summary.text, e.created)
    ensures steps <= more && AtDesk(FanRun(given, more), Prompt(d, e, calls).0)
    ensures Prompt(d, e, calls).1 ==> e.id in Prompt(d, e, calls).0.box.proof
  {
    WireIsRun(given, steps);
    var wire := WireSteps(steps);
    var on := CheckedThenEntered(wire, d.core, d.box, e);
    var (next, _, call) := Ingest(d.core, e);
    if call.Some? {
      var b := d.box.(batch := call.value.events, targets := [], phase := Entered);
      DriveSound(b, calls, d.calls);
      LaunchedHolds(d.core, e);
      on := DeliveredThenFinished(on, call.value, calls, d.calls);
    }
    more := CalmBeside(given, steps, wire, on);
  }

  /** Reading the marker, or else the ingest and the look at the proof set. */
  lemma PromptIsSteps(given: bool, steps: seq<FanStep>, d: Desk, e: Event, calls: nat -> bool)
    returns (more: seq<FanStep>)
    requires AtDesk(FanRun(given, steps), d) && !(MAIL_PREFIX <= e.id) && e.id !in d.progress.fanned
    requires e == W.ControlEvent(e.version, e.id, e.summary.text, e.created)
    ensures steps <= more && AtDesk(FanRun(given, more), Prompt(d, e, calls).0)
    ensures Prompt(d, e, calls).1 ==> AtStage(FanRun(given, more), e.id, Proven)
  {
    if IsPrompted(d.box.ledger, ControlKey(e.id)) {
      more := steps + [ReadMarker(e.id)];
      FanAppend(given, steps, ReadMarker(e.id));
    } else {
      more := steps;
      if d.core.active == Some(e.version) { more := IngestIsSteps(given, steps, d, e, calls); }
      if Prompt(d, e, calls).1 {
        FanAppend(given, more, SeeProof(e.id));
        more := more + [SeeProof(e.id)];
      }
    }
  }

  /** The sending half of the system. */
  ghost predicate Shows(f: Fan, p: Progress) {
    f.fanned == p.fanned && f.noted == p.noted && f.transports == p.transports
  }

  /** Transport, note and mark. */
  lemma SendIs(given: bool, f: Fan, p: Progress, id: string, oracle: nat -> bool)
    requires AtStage(f, id, Proven) && Shows(f, p)
    ensures var sent := given && id !in p.noted;
            var a := FanNext(given, f, Transport(id, oracle(p.used)));
            var b := FanNext(given, a, Note(id, oracle(p.used + 1)));
            var c := FanNext(given, b, MarkFanned(id, oracle(if sent then p.used + 2 else p.used)));
            c.wire == f.wire && Shows(c, Send(p, id, given, oracle))
  {
  }

  lemma SendIsSteps(given: bool, steps: seq<FanStep>, d: Desk, id: string, oracle: nat -> bool)
    returns (more: seq<FanStep>)
    requires AtDesk(FanRun(given, steps), d) && AtStage(FanRun(given, steps), id, Proven)
    ensures steps <= more
    ensures AtDesk(FanRun(given, more), d.(progress := Send(d.progress, id, given, oracle)))
  {
    var p := d.progress;
    SendIs(given, FanRun(given, steps), p, id, oracle);
    more := ThreeSteps(given, steps, Transport(id, oracle(p.used)), Note(id, oracle(p.used + 1)),
                       MarkFanned(id, oracle(if given && id !in p.noted then p.used + 2 else p.used)));
  }

  lemma ThreeSteps(given: bool, steps: seq<FanStep>, a: FanStep, b: FanStep, c: FanStep)
    returns (more: seq<FanStep>)
    ensures steps <= more
    ensures FanRun(given, more) ==
            FanNext(given,
                    FanNext(given, FanNext(given, FanRun(given, steps), a), b), c)
  {
    FanAppend(given, steps, a);
    FanAppend(given, steps + [a], b);
    FanAppend(given, steps + [a] + [b], c);
    more := steps + [a] + [b] + [c];
  }

  /** Events of the outbox that are not marked yet, each once. */
  ghost predicate Unsent(events: seq<Event>, fanned: set<string>) {
    && (forall e | e in events ::
          !(MAIL_PREFIX <= e.id) && e.id !in fanned && e == W.ControlEvent(e.version, e.id, e.summary.text, e.created))
    && (forall i, j | 0 <= i < j < |events| :: events[i].id != events[j].id)
  }

  lemma {:induction false} FannedFrom(d: Desk, events: seq<Event>, given: bool, calls: nat -> bool, oracle: nat -> bool)
    ensures FanAll(d, events, given, calls, oracle).progress.fanned <= d.progress.fanned + Ids(events)
  {
    if events != [] { FannedFrom(d, events[..|events| - 1], given, calls, oracle); }
  }

  lemma NotYetFanned(d: Desk, events: seq<Event>, given: bool, calls: nat -> bool, oracle: nat -> bool)
    requires events != [] && Unsent(events, d.progress.fanned)
    ensures var front, last := events[..|events| - 1], events[|events| - 1];
            Unsent(front, d.progress.fanned) && last.id !in FanAll(d, front, given, calls, oracle).progress.fanned
  {
    var front, last := events[..|events| - 1], events[|events| - 1];
    assert last in events && forall e | e in front :: e in events;
    FannedFrom(d, front, given, calls, oracle);
    WR.IdsMember(front, last.id);
    assert forall i | 0 <= i < |front| :: front[i].id == events[i].id && events[i].id != last.id;
  }

  /** The whole loop is a run of the steps of `FanOut`. */
  lemma {:induction false} FanAllIsSteps(given: bool, steps: seq<FanStep>, d: Desk, events: seq<Event>,
                                         calls: nat -> bool, oracle: nat -> bool)
    returns (more: seq<FanStep>)
    requires AtDesk(FanRun(given, steps), d) && Unsent(events, d.progress.fanned)
    ensures steps <= more
    ensures AtDesk(FanRun(given, more), FanAll(d, events, given, calls, oracle))
  {
    if events == [] {
      more := steps;
    } else {
      var front, last := events[..|events| - 1], events[|events| - 1];
      NotYetFanned(d, events, given, calls, oracle);
      assert last in events;
      var before := FanAllIsSteps(given, steps, d, front, calls, oracle);
      var desk := FanAll(d, front, given, calls, oracle);
      more := PromptIsSteps(given, before, desk, last, calls);
      var (next, evident) := Prompt(desk, last, calls);
      if evident { more := SendIsSteps(given, more, next, last.id, oracle); }
    }
  }

  /** So, started alone on any state the system can be in at rest, it marks only events that were
      accepted or bore a marker when it looked, and that were sent if there is a transport. */
  lemma LoopNeedsEvidence(given: bool, steps: seq<FanStep>, d: Desk, events: seq<Event>,
                          calls: nat -> bool, oracle: nat -> bool, id: string)
    returns (more: seq<FanStep>)
    requires AtDesk(FanRun(given, steps), d) && Unsent(events, d.progress.fanned)
    requires id in FanAll(d, events, given, calls, oracle).progress.fanned
    ensures steps <= more && AtDesk(FanRun(given, more), FanAll(d, events, given, calls, oracle))
    ensures var f := FanRun(given, more);
            && (ControlKey(id) in f.wire.log || id in f.read)
            && (given ==> id in FanAll(d, events, given, calls, oracle).progress.transports)
  {
    more := FanAllIsSteps(given, steps, d, events, calls, oracle);
    MarkedNeedsEvidence(given, more, id);
  }
}

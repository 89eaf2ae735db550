/**
 How an attempt that is not settled is taken back, with nobody prompted: from any such state a run of
 ordinary steps rejects the event and clears its marker.
 */
module MarkerLoss {
  import opened Prelude
  import opened ReceiptKeys
  import opened Delivery
  import opened ProofAdapter
  import opened AdapterOutcomes
  import opened Wiring
  import opened WiringRuns
  import opened MarkerEvidence
  import D = DeliveryRuns
  import DeliverySteps

  // ---------------------------------------------------------------- what the adapter remembers

  /** A batch that is being or has been reported as delivered is remembered as accepted, and so is
      whatever the core has delivered. */
  ghost predicate Remembering(s: Wire) {
    && (s.box.phase.Recovering? || s.box.phase == Returned(true) ==> Ids(s.box.batch) <= Known(s.box))
    && s.sys.core.delivered <= Known(s.box)
  }

  lemma AllAwaiting(b: Box)
    requires AllAwaitMarks(b.pendingMarks, b.batch)
    ensures Ids(b.batch) <= Known(b)
  {
    D.CoveredIds(b.batch, Known(b));
  }

  lemma MovedRemembering(s: Wire, ok: bool)
    requires Remembering(s)
    ensures Remembering(Moved(s, ok))
  {
    MicroKnown(s.box, ok);
    if s.box.phase.Entered? && AllAwaitMarks(s.box.pendingMarks, s.box.batch) { AllAwaiting(s.box); }
  }

  lemma FinishedRemembering(s: Wire)
    requires Base(s) && Remembering(s) && s.box.phase.Returned?
    ensures Remembering(Finished(s))
  {
    DeliverySteps.CloseStep(s.sys, s.box.phase.accepted);
  }

  lemma ThroughRemembering(s: Wire, step: Step)
    requires Base(s) && Remembering(s) && CoreStep(step).Some?
    ensures Remembering(Through(s, step, CoreStep(step).value))
  {
    DeliverySteps.CoreStep(s.sys, CoreStep(step).value);
  }

  lemma OtherRemembering(s: Wire, step: Step)
    requires Base(s) && Remembering(s) && CoreStep(step).None? && !step.Advance?
    ensures Remembering(Next(s, step))
  {
    if step.Announce? { DeliverySteps.BindStep(s.sys, step.version); }
  }

  lemma NextRemembering(s: Wire, step: Step)
    requires Base(s) && Remembering(s)
    ensures Remembering(Next(s, step))
  {
    if CoreStep(step).Some? {
      ThroughRemembering(s, step);
    } else if step.Advance? {
      if s.box.phase.Returned? { FinishedRemembering(s); } else { MovedRemembering(s, step.ok); }
    } else {
      OtherRemembering(s, step);
    }
  }

  lemma {:induction false} AlwaysRemembering(steps: seq<Step>)
    ensures Remembering(Run(steps))
  {
    if steps != [] {
      var front := steps[..|steps| - 1];
      Reachable(front);
      AlwaysRemembering(front);
      NextRemembering(Run(front), steps[|steps| - 1]);
    }
  }

  // ---------------------------------------------------------------- an unsettled marker

  /** An attempt whose event is at hand and was never accepted. */
  ghost predicate Loose(s: Wire, id: string, ahead: bool) {
    && !(MAIL_PREFIX <= id)
    && ControlKey(id) in s.box.ledger.attempts && ControlKey(id) !in s.box.ledger.delivered
    && ControlKey(id) !in s.log && id in HandIds(s, ahead)
  }

  lemma LooseUnknown(steps: seq<Step>, id: string, ahead: bool)
    requires Loose(Run(steps), id, ahead)
    ensures var s := Run(steps); id !in Known(s.box) && id in s.keys && s.keys[id] == ControlKey(id)
  {
    Reachable(steps);
    ProofIsAccepted(steps);
    var s := Run(steps);
    HandIsKeyed(s, id, ahead);
    ControlKeyShape(id, s.keys[id]);
  }

  lemma IdIsKeyed(keys: map<string, Key>, events: seq<Event>, id: string)
    requires (forall e | e in events :: KeyedAs(keys, e)) && id in Ids(events)
    ensures id in keys
  {
    IdsMember(events, id);
    var i :| 0 <= i < |events| && events[i].id == id;
    assert KeyedAs(keys, events[i]);
  }

  lemma HandIsKeyed(s: Wire, id: string, ahead: bool)
    requires Base(s) && id in HandIds(s, ahead)
    ensures id in s.keys
  {
    if id in Ids(s.sys.core.pending) { IdIsKeyed(s.keys, s.sys.core.pending, id); }
    if id in Ids(s.box.batch) { IdIsKeyed(s.keys, s.box.batch, id); }
  }

  /** `more` goes on from `steps` without a pause or a switch. */
  ghost predicate GoesOn(steps: seq<Step>, more: seq<Step>) {
    steps <= more && forall i | |steps| <= i < |more| :: !more[i].Pause? && !more[i].Announce?
  }

  lemma AdvanceOn(steps: seq<Step>, ok: bool) returns (more: seq<Step>)
    requires !Run(steps).box.phase.Returned?
    ensures more == steps + [Advance(ok)] && GoesOn(steps, more)
    ensures Run(more) == Moved(Run(steps), ok)
  {
    more := steps + [Advance(ok)];
    RunAppend(steps, Advance(ok));
  }

  /** Equal but for the adapter's progress with its batch. */
  ghost predicate SameButPhase(s: Wire, t: Wire) {
    && t.sys == s.sys && t.checked == s.checked && t.log == s.log
    && t.box.ledger == s.box.ledger && t.box.batch == s.box.batch
  }

  /** When every write and call fails, a delivery ends and leaves all markers alone. */
  lemma {:induction false} ToReturned(steps: seq<Step>) returns (more: seq<Step>)
    requires !Run(steps).box.phase.Idle?
    ensures GoesOn(steps, more) && Run(more).box.phase.Returned?
    ensures SameButPhase(Run(steps), Run(more))
    decreases Rank(Run(steps).box.phase), Remaining(Run(steps).box).0,
              Remaining(Run(steps).box).1
  {
    var b := Run(steps).box;
    if b.phase.Returned? {
      more := steps;
    } else {
      var next := AdvanceOn(steps, false);
      MicroShrinks(b, false);
      more := ToReturned(next);
    }
  }

  /** The delivery under way comes to its end; the event stays at hand with its loose attempt. */
  lemma ToIdle(steps: seq<Step>, id: string, ahead: bool) returns (more: seq<Step>)
    requires Loose(Run(steps), id, ahead)
    ensures GoesOn(steps, more) && Run(more).box.phase.Idle? && Loose(Run(more), id, ahead)
  {
    Reachable(steps);
    if Run(steps).box.phase.Idle? {
      more := steps;
    } else {
      var returned := ToReturned(steps);
      SameLoose(Run(steps), Run(returned), id, ahead);
      more := ReturnedToIdle(returned, id, ahead);
    }
  }

  lemma SameLoose(s: Wire, t: Wire, id: string, ahead: bool)
    requires Loose(s, id, ahead) && SameButPhase(s, t)
    ensures Loose(t, id, ahead)
  {
    assert Coming(t, ahead) == Coming(s, ahead);
  }

  lemma ReturnedToIdle(steps: seq<Step>, id: string, ahead: bool) returns (more: seq<Step>)
    requires Loose(Run(steps), id, ahead) && Run(steps).box.phase.Returned?
    ensures GoesOn(steps, more) && Run(more).box.phase.Idle? && Loose(Run(more), id, ahead)
  {
    more := steps + [Advance(true)];
    RunAppend(steps, Advance(true));
    LooseUnknown(steps, id, ahead);
    Reachable(steps);
    AlwaysRemembering(steps);
    FinishedLoose(Run(steps), id, ahead);
  }

  lemma FinishedLoose(s: Wire, id: string, ahead: bool)
    requires Base(s) && Remembering(s) && Loose(s, id, ahead) && id !in Known(s.box) && s.box.phase.Returned?
    ensures Loose(Finished(s), id, ahead)
  {
    DeliverySteps.CloseStep(s.sys, s.box.phase.accepted);
    assert Coming(Finished(s), ahead) == Coming(s, ahead);
  }

  lemma ThroughOn(steps: seq<Step>, step: Step) returns (more: seq<Step>)
    requires CoreStep(step).Some?
    ensures more == steps + [step] && GoesOn(steps, more)
    ensures Run(more) == Through(Run(steps), step, CoreStep(step).value)
  {
    more := steps + [step];
    RunAppend(steps, step);
  }

  /** A pending event gets into a delivery. */
  lemma PendingEnters(steps: seq<Step>, id: string, ahead: bool) returns (more: seq<Step>)
    requires Loose(Run(steps), id, ahead) && Run(steps).box.phase.Idle?
    requires id in Ids(Run(steps).sys.core.pending)
    ensures GoesOn(steps, more) && Loose(Run(more), id, ahead)
    ensures Run(more).box.phase.Entered? && id in Ids(Run(more).box.batch)
  {
    Reachable(steps);
    DeliverySteps.IdleLaunches(Run(steps).sys);
    more := ThroughOn(steps, Status("idle"));
  }

  /** The version of an event that waits for its ingest is announced, which is no step back if the event
      is live, and the event gets into `pending`. */
  lemma ComingJoins(steps: seq<Step>, id: string, ahead: bool) returns (bound: seq<Step>, more: seq<Step>)
    requires Loose(Run(steps), id, ahead) && Run(steps).box.phase.Idle?
    requires id !in Ids(Run(steps).sys.core.pending)
    ensures |bound| == |steps| + 1 && steps <= bound && bound[|steps|].Announce? && GoesOn(bound, more)
    ensures ahead ==> !StepsBack(Run(steps).sys.core, bound[|steps|])
    ensures Loose(Run(more), id, ahead) && InCore(Run(more), id)
  {
    Reachable(steps);
    var s := Run(steps);
    var e :| e in s.checked && Live(s.sys.core, e.version, ahead) && e.id == id;
    bound := steps + [Announce(e.version)];
    RunAppend(steps, Announce(e.version));
    LooseUnknown(steps, id, ahead);
    VersionReturns(s, e);
    more := Joins(bound, e);
  }

  lemma Joins(steps: seq<Step>, e: Event) returns (more: seq<Step>)
    requires var s := Run(steps);
             && e in s.checked && s.sys.core.active == Some(e.version) && s.box.phase.Idle?
             && e.id !in Known(s.box) && e.id !in Ids(s.sys.core.pending)
    ensures GoesOn(steps, more) && InCore(Run(more), e.id)
    ensures Run(more).log == Run(steps).log && Run(more).box.ledger == Run(steps).box.ledger
  {
    Reachable(steps);
    AlwaysRemembering(steps);
    NewEntered(Run(steps), e);
    more := ThroughOn(steps, Enter(e));
  }

  lemma VersionReturns(s: Wire, e: Event)
    requires Base(s) && e in s.checked && e.id !in Ids(s.sys.core.pending)
    ensures var t := Announced(s, e.version);
            && t.sys.core.active == Some(e.version) && e.id !in Ids(t.sys.core.pending)
            && e in t.checked && t.box == s.box && t.log == s.log
  {
    DeliverySteps.BindStep(s.sys, e.version);
  }

  lemma NewEntered(s: Wire, e: Event)
    requires Base(s) && Remembering(s) && s.box.phase.Idle? && e in s.checked
    requires s.sys.core.active == Some(e.version) && e.id !in Known(s.box) && e.id !in Ids(s.sys.core.pending)
    ensures var t := Through(s, Enter(e), D.DoIngest(e));
            t.log == s.log && t.box.ledger == s.box.ledger && InCore(t, e.id)
  {
    DeliverySteps.NewJoins(s.sys, e);
  }

  // ---------------------------------------------------------------- the rejection

  lemma {:induction false} ToCalling(steps: seq<Step>) returns (more: seq<Step>)
    requires var b := Run(steps).box; b.phase.Attempting? && b.phase.n <= |b.targets|
    ensures GoesOn(steps, more)
    ensures var s, t := Run(steps), Run(more);
            t.box == Called(s.box) && t.log == s.log && t.disturbed == s.disturbed
    decreases |Run(steps).box.targets| - Run(steps).box.phase.n
  {
    var b := Run(steps).box;
    var next := AdvanceOn(steps, true);
    if b.phase.n < |b.targets| {
      CalledShifts(b);
      more := ToCalling(next);
    } else {
      AllAttempted(b, true);
      more := next;
    }
  }

  lemma {:induction false} ToCleared(steps: seq<Step>) returns (more: seq<Step>)
    requires var b := Run(steps).box; b.phase.Clearing? && b.phase.n <= |b.targets|
    ensures GoesOn(steps, more)
    ensures var s, t := Run(steps), Run(more);
            && t.log == s.log
            && t.box.ledger == Ledger(s.box.ledger.attempts - Elements(s.box.targets[s.box.phase.n..]),
                                      s.box.ledger.delivered)
    decreases |Run(steps).box.targets| - Run(steps).box.phase.n
  {
    var b := Run(steps).box;
    if b.phase.n < |b.targets| {
      var next := AdvanceOn(steps, true);
      ElementsFirst(b.targets, b.phase.n);
      more := ToCleared(next);
    } else {
      assert Elements(b.targets[b.phase.n..]) == {};
      more := steps;
    }
  }

  lemma StartsAttempting(steps: seq<Step>, id: string, ahead: bool) returns (more: seq<Step>)
    requires Loose(Run(steps), id, ahead)
    requires Run(steps).box.phase.Entered? && id in Ids(Run(steps).box.batch)
    ensures GoesOn(steps, more)
    ensures var s, t := Run(steps), Run(more);
            && t.log == s.log && t.box.ledger == s.box.ledger
            && t.box.phase == Attempting(0) && ControlKey(id) in t.box.targets
  {
    LooseUnknown(steps, id, ahead);
    Reachable(steps);
    var s := Run(steps);
    TargetsMissing(s.box.batch);
    IdsMember(s.box.batch, id);
    var i :| 0 <= i < |s.box.batch| && s.box.batch[i].id == id;
    assert s.box.batch[i] in s.box.batch;
    more := AdvanceOn(steps, true);
    assert Targets(s.box.batch).value[i] == ControlKey(id);
  }

  /** The delivery is attempted, rejected and cleared. */
  lemma RejectedAndCleared(steps: seq<Step>, id: string, ahead: bool) returns (more: seq<Step>)
    requires Loose(Run(steps), id, ahead)
    requires Run(steps).box.phase.Entered? && id in Ids(Run(steps).box.batch)
    ensures GoesOn(steps, more) && !Evidence(Run(more), id)
  {
    var attempting := StartsAttempting(steps, id, ahead);
    var calling := ToCalling(attempting);
    var clearing := AdvanceOn(calling, false);
    more := ToCleared(clearing);
    var targets := Run(clearing).box.targets;
    assert targets[0..] == targets && ControlKey(id) in Elements(targets);
  }

  /** Pending and idle, or in a delivery that has just begun. */
  ghost predicate InCore(s: Wire, id: string) {
    && id in Ids(s.sys.core.pending)
    && (s.box.phase.Idle? || (s.box.phase.Entered? && id in Ids(s.box.batch)))
  }

  lemma InCoreIsLost(steps: seq<Step>, id: string, ahead: bool) returns (more: seq<Step>)
    requires Loose(Run(steps), id, ahead) && InCore(Run(steps), id)
    ensures GoesOn(steps, more) && !Evidence(Run(more), id)
  {
    var entered := steps;
    if Run(steps).box.phase.Idle? { entered := PendingEnters(steps, id, ahead); }
    more := RejectedAndCleared(entered, id, ahead);
  }

  /** An event on its way in gets lost by way of a switch to its version. */
  lemma ComingIsLost(steps: seq<Step>, from: nat, id: string, ahead: bool) returns (more: seq<Step>)
    requires Loose(Run(steps), id, ahead) && Run(steps).box.phase.Idle? && from <= |steps|
    requires id !in Ids(Run(steps).sys.core.pending) && Unhindered(steps, from, id, ahead) && Unpaused(steps, from)
    ensures steps <= more && Unhindered(more, from, id, ahead) && Unpaused(more, from) && !Evidence(Run(more), id)
  {
    var bound, joined := ComingJoins(steps, id, ahead);
    SwitchUnhindered(steps, bound, from, id, ahead);
    more := InCoreIsLost(joined, id, ahead);
    StaysUnhindered(bound, more, from, id, ahead);
  }

  lemma SwitchUnhindered(steps: seq<Step>, bound: seq<Step>, from: nat, id: string, ahead: bool)
    requires |bound| == |steps| + 1 && steps <= bound && bound[|steps|].Announce? && from <= |steps|
    requires ahead ==> !StepsBack(Run(steps).sys.core, bound[|steps|])
    requires Unhindered(steps, from, id, ahead) && Unpaused(steps, from)
    ensures Unhindered(bound, from, id, ahead) && Unpaused(bound, from)
  {
    assert bound[..|steps|] == steps;
  }

  /** From every state with a loose attempt a run of ordinary steps takes it back, and nobody is prompted. */
  lemma LooseIsLost(steps: seq<Step>, id: string, ahead: bool) returns (more: seq<Step>)
    requires Loose(Run(steps), id, ahead)
    ensures steps <= more && Unhindered(more, |steps|, id, ahead) && Unpaused(more, |steps|)
    ensures !Evidence(Run(more), id)
  {
    var idle := ToIdle(steps, id, ahead);
    StaysUnhindered(steps, idle, |steps|, id, ahead);
    if id in Ids(Run(idle).sys.core.pending) {
      more := InCoreIsLost(idle, id, ahead);
      StaysUnhindered(idle, more, |steps|, id, ahead);
    } else {
      more := ComingIsLost(idle, |steps|, id, ahead);
    }
  }

  ghost predicate Unpaused(steps: seq<Step>, from: nat) {
    forall i | from <= i < |steps| :: !steps[i].Pause?
  }

  lemma {:induction false} StaysUnhindered(steps: seq<Step>, more: seq<Step>, from: nat, id: string, ahead: bool)
    requires GoesOn(steps, more) && Unhindered(steps, from, id, ahead) && Unpaused(steps, from)
    ensures Unhindered(more, from, id, ahead) && Unpaused(more, from)
    decreases |more|
  {
    if |steps| == |more| {
      assert steps == more;
    } else {
      StaysUnhindered(steps, more[..|more| - 1], from, id, ahead);
    }
  }

  // ---------------------------------------------------------------- the exact condition

  /** `more` goes on from `steps`, never pauses this event's receipt and, if required, never steps back. */
  ghost predicate Follows(steps: seq<Step>, more: seq<Step>, id: string, ahead: bool) {
    steps <= more && Unhindered(more, |steps|, id, ahead)
  }

  /** A marker that is read is evidence for ever, whatever follows, exactly when it is settled at the
      moment of reading or the event was accepted before. */
  lemma ReadIsSafeExactly(steps: seq<Step>, id: string, ahead: bool)
    requires !(MAIL_PREFIX <= id) && IsPrompted(Run(steps).box.ledger, ControlKey(id))
    ensures var s := Run(steps);
            (Settled(s, id, ahead) || ControlKey(id) in s.log) <==>
            (forall more | Follows(steps, more, id, ahead) :: Evidence(Run(more), id))
  {
    var s := Run(steps);
    if Settled(s, id, ahead) || ControlKey(id) in s.log {
      forall more | Follows(steps, more, id, ahead) ensures Evidence(Run(more), id) {
        LogForever(steps, more);
        if ControlKey(id) !in s.log { SettledForever(steps, more, id, ahead); }
      }
    } else {
      var more := LooseIsLost(steps, id, ahead);
      assert Follows(steps, more, id, ahead);
    }
  }
}

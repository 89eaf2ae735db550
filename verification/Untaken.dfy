/** An event that nobody has taken up: what the wiring needs to get hold of it. */
module Untaken {
  import opened Prelude
  import opened ReceiptKeys
  import opened Delivery
  import opened ProofAdapter
  import opened Wiring
  import opened WiringRuns
  import opened MarkerEvidence
  import opened MarkerLoss
  import opened FanOut
  import DeliverySteps
  import D = DeliveryRuns

  // ---------------------------------------------------------------- which events can be taken up

  /** An event without a proof that is on its way in gets pending exactly when its version is the active
      one, unless it is pending already. */
  lemma TakenUpExactly(steps: seq<Step>, e: Event)
    requires e in Run(steps).checked && e.id !in Known(Run(steps).box)
    ensures var s := Run(steps);
            e.id in Ids(Wiring.Next(s, Enter(e)).sys.core.pending) <==>
            e.id in Ids(s.sys.core.pending) || s.sys.core.active == Some(e.version)
  {
    Reachable(steps);
    AlwaysRemembering(steps);
    ReingestExactly(Run(steps), e);
  }

  // ---------------------------------------------------------------- steps of the wiring

  /** The adapter has nothing to do with the event: no marker, no proof, no mark due. */
  ghost predicate Foreign(b: Box, id: string) {
    && id !in Ids(b.batch) && !IsPrompted(b.ledger, ControlKey(id)) && id !in b.proof && id !in b.pendingMarks
    && forall other | other in b.pendingMarks :: ControlKey(id) !in b.pendingMarks[other]
  }

  ghost predicate Outside(s: Wiring.Wire, id: string) {
    id !in Ids(s.sys.core.pending) && Foreign(s.box, id)
  }

  /** The event is still outside, and nobody got hold of it. */
  ghost predicate StaysOut(s: Wiring.Wire, t: Wiring.Wire, id: string) {
    Outside(t, id) && forall e | e in t.checked && e.id == id :: e in s.checked
  }

  lemma AdoptOut(s: Wiring.Wire, sys: D.System, extra: set<Event>, id: string)
    requires Outside(s, id) && DeliverySteps.Advanced(s.sys, sys, extra) && Joined(s)
    requires forall e | e in extra :: e.id != id
    ensures StaysOut(s, Adopt(s, sys), id)
  {
    IdsWithin(sys.core.pending, s.sys.core.pending, extra);
  }

  lemma ThroughOut(s: Wiring.Wire, step: Wiring.Step, id: string)
    requires Base(s) && Outside(s, id) && CoreStep(step).Some?
    requires step.Enter? && step.event.id == id ==> s.sys.core.active != Some(step.event.version)
    ensures StaysOut(s, Through(s, step, CoreStep(step).value), id)
  {
    var core := CoreStep(step).value;
    DeliverySteps.CoreStep(s.sys, core);
    if !step.Enter? {
      AdoptOut(s, D.Next(s.sys, core), {}, id);
    } else if step.event in s.checked {
      AdoptOut(s.(checked := s.checked - multiset{step.event}), D.Next(s.sys, core),
               DeliverySteps.Admitted(s.sys.core, step.event), id);
    }
  }

  lemma AnnouncedOut(s: Wiring.Wire, version: int, id: string)
    requires Base(s) && Outside(s, id)
    ensures StaysOut(s, Announced(s, version), id)
  {
    DeliverySteps.BindStep(s.sys, version);
    RelabelledMembers(Bind(s.sys.core, version).1, version);
  }

  lemma {:induction false} AwaitingValues(pendingMarks: map<string, seq<Key>>, events: seq<Event>, targets: seq<Key>)
    ensures var m := Awaiting(pendingMarks, events, targets);
            forall i | i in m :: m[i] == targets || (i in pendingMarks && m[i] == pendingMarks[i])
  {
    if events != [] { AwaitingValues(pendingMarks, events[..|events| - 1], targets); }
  }

  lemma MicroForeign(b: Box, ok: bool, id: string)
    requires Foreign(b, id) && (b.phase.Attempting? || b.phase.Marking? ==> ControlKey(id) !in b.targets)
    ensures Foreign(Micro(b, ok), id)
  {
    if b.phase.Recovering? {
      RecoveringForeign(b, ok, id);
    } else if b.phase.Marking? && b.phase.n >= |b.targets| {
      AwaitingKeys(b.pendingMarks, b.batch, b.targets);
      AwaitingValues(b.pendingMarks, b.batch, b.targets);
    }
  }

  lemma RecoveringForeign(b: Box, ok: bool, id: string)
    requires Foreign(b, id) && b.phase.Recovering?
    ensures Foreign(Micro(b, ok), id)
  {
    if b.phase.i < |b.batch| { IdsMember(b.batch, b.batch[b.phase.i].id); }
  }

  lemma MovedOut(s: Wiring.Wire, ok: bool, id: string)
    requires Base(s) && Outside(s, id) && !s.box.phase.Returned?
    ensures StaysOut(s, Moved(s, ok), id)
  {
    if (s.box.phase.Attempting? || s.box.phase.Marking?) && ControlKey(id) in s.box.targets { TargetAtHand(s, id); }
    MicroForeign(s.box, ok, id);
  }

  lemma FinishedOut(s: Wiring.Wire, id: string)
    requires Base(s) && Outside(s, id) && s.box.phase.Returned?
    ensures StaysOut(s, Wiring.Finished(s), id)
  {
    DeliverySteps.CloseStep(s.sys, s.box.phase.accepted);
  }

  lemma CheckedOut(s: Wiring.Wire, step: Wiring.Step, id: string)
    requires Outside(s, id) && !(MAIL_PREFIX <= id) && step.CheckMail?
    ensures StaysOut(s, Wiring.Next(s, step), id)
  {
    if Deliverable(step.summary) {
      assert MAIL_PREFIX <= MailEvent(step.version, step.summary, step.created).id;
    }
  }

  lemma WireOut(s: Wiring.Wire, step: Wiring.Step, id: string)
    requires Base(s) && Outside(s, id) && !(MAIL_PREFIX <= id) && !step.CheckControl?
    requires step.Enter? && step.event.id == id ==> s.sys.core.active != Some(step.event.version)
    ensures StaysOut(s, Wiring.Next(s, step), id)
  {
    if CoreStep(step).Some? {
      ThroughOut(s, step, id);
    } else {
      match step
      case Announce(version) => AnnouncedOut(s, version, id);
      case CheckMail(_, _, _, _) => CheckedOut(s, step, id);
      case Advance(ok) => if s.box.phase.Returned? { FinishedOut(s, id); } else { MovedOut(s, ok, id); }
      case _ =>
    }
  }
}

/**
 How long a marker read on the receipt of a control event stays evidence of a prompt.

 A rejection clears the attempts of its batch, so an attempt that is read may be taken back later.  It
 is final exactly when its event is nowhere at hand at the moment of reading: not pending, not in a
 delivery, and in the hands of no thread on its way to an ingest, be it let through by a check or handed
 over by a switch.

 `ahead` says that announced versions never step back within a life.  Then an event of a superseded
 version is not at hand: its ingest will be stale.  Without that the version may come back.
 */
module MarkerEvidence {
  import opened Prelude
  import opened ReceiptKeys
  import opened Delivery
  import opened ProofAdapter
  import opened Wiring
  import opened WiringRuns
  import D = DeliveryRuns
  import DeliverySteps

  /** An ingest under this version may still take its event. */
  predicate Live(core: Scope, version: int, ahead: bool) {
    ahead && core.active.Some? ==> core.active.value <= version
  }

  /** The ids on their way to an ingest. */
  ghost function Coming(s: Wire, ahead: bool): set<string> {
    set e | e in s.checked && Live(s.sys.core, e.version, ahead) :: e.id
  }

  /** The events that a later step may deliver. */
  ghost function HandIds(s: Wire, ahead: bool): set<string> {
    Ids(s.sys.core.pending) + Ids(s.box.batch) + Coming(s, ahead)
  }

  /** What the reader of a marker can check at once. */
  ghost predicate Settled(s: Wire, id: string, ahead: bool) {
    || ControlKey(id) in s.box.ledger.delivered
    || (ControlKey(id) in s.box.ledger.attempts && id !in HandIds(s, ahead))
  }

  /** The event was accepted, or its receipt bears a marker. */
  ghost predicate Evidence(s: Wire, id: string) {
    ControlKey(id) in s.log || IsPrompted(s.box.ledger, ControlKey(id))
  }

  // ---------------------------------------------------------------- a settled marker stays

  lemma IdsWithin(a: seq<Event>, b: seq<Event>, extra: set<Event>)
    requires forall e | e in a :: e in b || e in extra
    ensures Ids(a) <= Ids(b) + set e | e in extra :: e.id
  {
    forall e | e in a ensures e.id in Ids(b) + set x | x in extra :: x.id {
      if e in b { IdsMember(b, e.id); }
    }
    D.CoveredIds(a, Ids(b) + set e | e in extra :: e.id);
  }

  lemma AdoptHand(s: Wire, sys: D.System, extra: set<Event>, ahead: bool)
    requires DeliverySteps.Advanced(s.sys, sys, extra) && Joined(s)
    ensures HandIds(Adopt(s, sys), ahead) <= HandIds(s, ahead) + set e | e in extra :: e.id
  {
    IdsWithin(sys.core.pending, s.sys.core.pending, extra);
  }

  /** An ingest takes nothing in that was not at hand; a stale one drops its event. */
  lemma EnterHand(s: Wire, e: Event, ahead: bool)
    requires Base(s) && e in s.checked
    ensures HandIds(Through(s, Enter(e), D.DoIngest(e)), ahead) <= HandIds(s, ahead)
  {
    DeliverySteps.IngestStep(s.sys, e);
    EnteredHand(s, e, D.Next(s.sys, D.DoIngest(e)), ahead);
  }

  lemma EnteredHand(s: Wire, e: Event, sys: D.System, ahead: bool)
    requires Joined(s) && e in s.checked
    requires DeliverySteps.Advanced(s.sys, sys, DeliverySteps.Admitted(s.sys.core, e))
    ensures HandIds(Adopt(s.(checked := s.checked - multiset{e}), sys), ahead) <= HandIds(s, ahead)
  {
    AdoptHand(s.(checked := s.checked - multiset{e}), sys, DeliverySteps.Admitted(s.sys.core, e), ahead);
    LeavesChecked(s, e, ahead);
  }

  /** An event of a superseded version is dropped by its ingest; nothing else changes. */
  lemma StaleIngestDrops(s: Wire, e: Event)
    requires Base(s) && e in s.checked && s.sys.core.active != Some(e.version)
    ensures Next(s, Enter(e)) == s.(checked := s.checked - multiset{e})
  {
  }

  lemma LeavesChecked(s: Wire, e: Event, ahead: bool)
    requires e in s.checked
    ensures Coming(s.(checked := s.checked - multiset{e}), ahead) <= Coming(s, ahead)
    ensures s.sys.core.active == Some(e.version) ==> e.id in Coming(s, ahead)
  {
  }

  lemma ThroughHand(s: Wire, step: Step, ahead: bool)
    requires Base(s) && CoreStep(step).Some?
    ensures HandIds(Through(s, step, CoreStep(step).value), ahead) <= HandIds(s, ahead)
  {
    if !step.Enter? {
      DeliverySteps.CoreStep(s.sys, CoreStep(step).value);
      AdoptHand(s, D.Next(s.sys, CoreStep(step).value), {}, ahead);
    } else if step.event in s.checked {
      EnterHand(s, step.event, ahead);
    }
  }

  /** A switch to a lower version. */
  predicate StepsBack(core: Scope, step: Step) {
    step.Announce? && core.active.Some? && step.version < core.active.value
  }

  /** What was pending is pending still, or all of it is in the hands of a thread. */
  ghost predicate Hands(s: Wire, t: Wire, handed: seq<Event>) {
    && t.box == s.box && t.checked == s.checked + multiset(handed)
    && (forall e | e in handed :: e.id in Ids(s.sys.core.pending))
    && if t.sys.core.active == s.sys.core.active then t.sys.core.pending == s.sys.core.pending
       else t.sys.core.pending == [] && Ids(handed) == Ids(s.sys.core.pending)
  }

  lemma AnnouncedHands(s: Wire, version: int)
    requires Base(s)
    ensures Hands(s, Announced(s, version), Relabelled(Bind(s.sys.core, version).1, version))
    ensures Announced(s, version).sys.core.active == Some(version)
  {
    DeliverySteps.BindStep(s.sys, version);
    RelabelledMembers(Bind(s.sys.core, version).1, version);
  }

  /** The events that a switch clears stay at hand, with the thread that made the switch. */
  lemma AnnouncedHand(s: Wire, version: int, ahead: bool)
    requires Base(s) && (ahead ==> !StepsBack(s.sys.core, Announce(version)))
    ensures HandIds(Announced(s, version), ahead) <= HandIds(s, ahead)
    ensures !ahead ==> HandIds(Announced(s, version), ahead) == HandIds(s, ahead)
  {
    AnnouncedHands(s, version);
    HandedComing(s, Announced(s, version), Relabelled(Bind(s.sys.core, version).1, version), ahead);
    if !ahead { HandedStay(s, Announced(s, version), Relabelled(Bind(s.sys.core, version).1, version)); }
  }

  lemma HandedComing(s: Wire, t: Wire, handed: seq<Event>, ahead: bool)
    requires Hands(s, t, handed) && t.sys.core.active.Some?
    requires ahead && s.sys.core.active.Some? ==> s.sys.core.active.value <= t.sys.core.active.value
    ensures HandIds(t, ahead) <= HandIds(s, ahead)
  {
    forall id | id in Coming(t, ahead) ensures id in Coming(s, ahead) + Ids(s.sys.core.pending) {
      var e :| e in t.checked && Live(t.sys.core, e.version, ahead) && e.id == id;
      assert e in s.checked || e in handed;
    }
  }

  lemma HandedStay(s: Wire, t: Wire, handed: seq<Event>)
    requires Hands(s, t, handed)
    ensures HandIds(s, false) <= HandIds(t, false)
  {
    forall id | id in Ids(s.sys.core.pending) ensures id in HandIds(t, false) {
      if t.sys.core.active != s.sys.core.active {
        IdsMember(handed, id);
        var i :| 0 <= i < |handed| && handed[i].id == id;
        assert handed[i] in t.checked;
      }
    }
    assert Coming(s, false) <= Coming(t, false);
  }

  lemma FinishedHand(s: Wire, ahead: bool)
    requires Base(s) && s.box.phase.Returned?
    ensures HandIds(Finished(s), ahead) <= HandIds(s, ahead)
  {
    DeliverySteps.CloseStep(s.sys, s.box.phase.accepted);
    assert Coming(Finished(s), ahead) == Coming(s, ahead);
  }

  /** Delivered marks stay, and only the clearing of its own batch takes an attempt. */
  lemma MicroLedger(b: Box, ok: bool)
    ensures b.ledger.delivered <= Micro(b, ok).ledger.delivered
    ensures forall k | k in b.ledger.attempts ::
              k in Micro(b, ok).ledger.attempts || (b.phase.Clearing? && k in b.targets)
  {
  }

  lemma TargetAtHand(s: Wire, id: string)
    requires Base(s) && Targets(s.box.batch) == Some(s.box.targets) && ControlKey(id) in s.box.targets
    ensures id in Ids(s.box.batch)
  {
    var i :| 0 <= i < |s.box.targets| && s.box.targets[i] == ControlKey(id);
    TargetAt(s, i);
    assert KeyShape(s.box.batch[i].id, ControlKey(id));
    IdsMember(s.box.batch, id);
  }

  lemma MovedSettled(s: Wire, ok: bool, id: string, ahead: bool)
    requires Base(s) && Settled(s, id, ahead) && !s.box.phase.Returned?
    ensures Settled(Moved(s, ok), id, ahead)
  {
    MicroLedger(s.box, ok);
    MicroShape(s.box, ok);
    assert Coming(Moved(s, ok), ahead) == Coming(s, ahead);
    if s.box.phase.Clearing? && ControlKey(id) in s.box.targets { TargetAtHand(s, id); }
  }

  lemma LetComing(s: Wire, e: Event, key: Key, ahead: bool)
    ensures Coming(Let(s, e, key), ahead) <= Coming(s, ahead) + {e.id}
  {
  }

  lemma MailCheckedSettled(s: Wire, step: Step, id: string, ahead: bool)
    requires Settled(s, id, ahead) && !(MAIL_PREFIX <= id) && step.CheckMail?
    ensures Settled(Next(s, step), id, ahead)
  {
    if Deliverable(step.summary) {
      var e := MailEvent(step.version, step.summary, step.created);
      assert MAIL_PREFIX <= e.id;
      LetComing(s.(seen := s.seen + {step.summary.messageId.value}), e, Target(e).value, ahead);
    }
  }

  lemma ControlCheckedSettled(s: Wire, step: Step, id: string, ahead: bool)
    requires Settled(s, id, ahead) && step.CheckControl?
    ensures Settled(Next(s, step), id, ahead)
  {
    LetComing(s, ControlEvent(step.version, step.eventId, step.text, step.created), ControlKey(step.eventId), ahead);
  }

  lemma AdvancedSettled(s: Wire, ok: bool, id: string, ahead: bool)
    requires Base(s) && Settled(s, id, ahead)
    ensures Settled(Advanced(s, ok), id, ahead)
  {
    if s.box.phase.Returned? { FinishedHand(s, ahead); } else { MovedSettled(s, ok, id, ahead); }
  }

  lemma PausedSettled(s: Wire, key: Key, id: string, ahead: bool)
    requires Settled(s, id, ahead) && key != ControlKey(id)
    ensures Settled(Paused(s, key), id, ahead)
  {
    assert Coming(Paused(s, key), ahead) == Coming(s, ahead);
  }

  lemma CrashedSettled(s: Wire, id: string, ahead: bool)
    requires Settled(s, id, ahead)
    ensures Settled(Crashed(s), id, ahead)
  {
    assert Coming(Crashed(s), ahead) == {};
  }

  /** No step but a pause of this very receipt takes a settled marker back. */
  lemma SettledStays(s: Wire, step: Step, id: string, ahead: bool)
    requires Base(s) && Settled(s, id, ahead) && !(MAIL_PREFIX <= id) && step != Pause(ControlKey(id))
    requires ahead ==> !StepsBack(s.sys.core, step)
    ensures Settled(Next(s, step), id, ahead)
  {
    if CoreStep(step).Some? {
      ThroughHand(s, step, ahead);
    } else {
      match step
      case Announce(version) => AnnouncedHand(s, version, ahead);
      case CheckMail(_, _, _, _) => MailCheckedSettled(s, step, id, ahead);
      case CheckControl(_, _, _, _) => ControlCheckedSettled(s, step, id, ahead);
      case Advance(ok) => AdvancedSettled(s, ok, id, ahead);
      case Pause(key) => PausedSettled(s, key, id, ahead);
      case Crash => CrashedSettled(s, id, ahead);
    }
  }

  /** From position `from` on: no pause of this event's receipt, and no step back if that is required. */
  ghost predicate Unhindered(steps: seq<Step>, from: nat, id: string, ahead: bool) {
    |steps| <= from ||
    var front, last := steps[..|steps| - 1], steps[|steps| - 1];
    && Unhindered(front, from, id, ahead)
    && last != Pause(ControlKey(id)) && (ahead ==> !StepsBack(Run(front).sys.core, last))
  }

  lemma {:induction false} SettledForever(steps: seq<Step>, more: seq<Step>, id: string, ahead: bool)
    requires steps <= more && Unhindered(more, |steps|, id, ahead) && !(MAIL_PREFIX <= id)
    requires Settled(Run(steps), id, ahead)
    ensures Settled(Run(more), id, ahead)
    decreases |more|
  {
    if |steps| == |more| {
      assert steps == more;
    } else {
      var front := more[..|more| - 1];
      SettledForever(steps, front, id, ahead);
      Reachable(front);
      SettledStays(Run(front), more[|more| - 1], id, ahead);
    }
  }

  lemma {:induction false} LogForever(steps: seq<Step>, more: seq<Step>)
    requires steps <= more
    ensures Run(steps).log <= Run(more).log
    decreases |more|
  {
    if |steps| == |more| {
      assert steps == more;
    } else {
      LogForever(steps, more[..|more| - 1]);
      LogGrows(Run(more[..|more| - 1]), more[|more| - 1]);
    }
  }
}

/** What every step of an orderly run keeps: an accepted event is on its way in nowhere. */
module OrderlySteps {
  import opened Prelude
  import opened ReceiptKeys
  import opened Delivery
  import opened ProofAdapter
  import opened Wiring
  import opened WiringRuns
  import D = DeliveryRuns
  import DeliverySteps

  // ---------------------------------------------------------------- orderly runs

  /** A switch to another version finds no delivery under way and goes up. */
  ghost predicate QuietSwitch(s: Wire, step: Step) {
    step.Announce? && s.sys.core.active != Some(step.version) ==>
      s.box.phase.Idle? && (s.sys.core.active.None? || s.sys.core.active.value < step.version)
  }

  /** `own` is the version with which each control event was written to the outbox. */
  ghost predicate OwnVersion(own: string -> int, step: Step) {
    step.CheckControl? ==> step.version == own(step.eventId)
  }

  /** A pause finds no marker on its receipt. */
  ghost predicate PauseUnmarked(s: Wire, step: Step) {
    step.Pause? ==> !IsPrompted(s.box.ledger, step.key)
  }

  ghost predicate OrderlyStep(own: string -> int, s: Wire, step: Step) {
    QuietSwitch(s, step) && OwnVersion(own, step) && PauseUnmarked(s, step)
  }

  ghost predicate Orderly(own: string -> int, steps: seq<Step>) {
    steps == [] ||
    var front, last := steps[..|steps| - 1], steps[|steps| - 1];
    Orderly(own, front) && OrderlyStep(own, Run(front), last)
  }

  lemma OrderlyAppend(own: string -> int, steps: seq<Step>, step: Step)
    ensures Orderly(own, steps + [step]) <==> Orderly(own, steps) && OrderlyStep(own, Run(steps), step)
  {
    assert (steps + [step])[..|steps|] == steps;
  }

  /** Steps that are neither switches, pauses nor checks of control events are always in order. */
  lemma {:induction false} OrderlyExtends(own: string -> int, steps: seq<Step>, more: seq<Step>)
    requires Orderly(own, steps) && steps <= more
    requires forall i | |steps| <= i < |more| :: !more[i].Announce? && !more[i].Pause? && !more[i].CheckControl?
    ensures Orderly(own, more)
    decreases |more|
  {
    if |steps| == |more| {
      assert steps == more;
    } else {
      OrderlyExtends(own, steps, more[..|more| - 1]);
    }
  }

  // ---------------------------------------------------------------- invariant

  /** Accepted and proven, but still on the way back to the core. */
  ghost function Settling(b: Box): set<string> {
    if b.phase == Returned(true) then Ids(b.batch) else {}
  }

  /** No write of a delivered mark has failed, and the call under way is of the current generation. */
  ghost predicate Smooth(s: Wire) {
    && s.box.pendingMarks == map[] && !s.box.phase.Recovering?
    && (s.box.phase.Marking? ==> s.box.phase.good)
    && (s.sys.air != [] ==> s.sys.air[0].flight.generation == s.sys.core.generation)
    && Ids(s.sys.core.pending) * s.box.proof <= Settling(s.box)
  }

  /** The version is the active one or an earlier one. */
  predicate Past(core: Scope, version: int) {
    core.active.Some? && version <= core.active.value
  }

  /** Ids that were entered in this life and are still known. */
  ghost function Entered(s: Wire): set<string> {
    Ids(s.sys.core.pending) + s.box.proof
  }

  /** An event on its way in repeats nothing: if its id was entered before, its version is not ahead, and
      if the id was accepted, its ingest is stale or a duplicate. */
  ghost predicate Harmless(s: Wire, e: Event) {
    && (e.id in Entered(s) ==> Past(s.sys.core, e.version))
    && (e.id in s.box.proof && s.sys.core.active == Some(e.version) ==>
          e.id in s.sys.core.delivered + Settling(s.box))
  }

  /** Two events of one id: both of the same version, or none of them ahead. */
  ghost predicate Agree(core: Scope, a: Event, b: Event) {
    a.id == b.id ==> a.version == b.version || (Past(core, a.version) && Past(core, b.version))
  }

  /** A control event that was entered, or that has another version by now, was not written ahead. */
  ghost predicate Owned(own: string -> int, s: Wire) {
    && (forall id | id in Entered(s) && !(MAIL_PREFIX <= id) :: Past(s.sys.core, own(id)))
    && (forall e | e in s.checked && !(MAIL_PREFIX <= e.id) && e.version != own(e.id) ::
          Past(s.sys.core, own(e.id)) && Past(s.sys.core, e.version))
  }

  ghost predicate Tidy(own: string -> int, s: Wire) {
    && Smooth(s) && Owned(own, s)
    && (forall e | e in s.checked :: Harmless(s, e))
    && (forall a, b | a in s.checked && b in s.checked :: Agree(s.sys.core, a, b))
  }

  lemma SmoothIsNotMixed(s: Wire)
    requires Base(s) && Smooth(s)
    ensures !Mixed(s.box)
  {
    if s.box.phase.Entered? {
      assert Ids(s.box.batch) <= Ids(s.sys.core.pending);
      assert Known(s.box) == s.box.proof;
    }
  }

  // ---------------------------------------------------------------- steps

  /** Steps that bring nothing new in. */
  lemma LessTidy(own: string -> int, s: Wire, t: Wire)
    requires Tidy(own, s) && Smooth(t) && t.sys.core.active == s.sys.core.active
    requires Entered(t) <= Entered(s) && t.box.proof <= s.box.proof + Settling(t.box)
    requires s.sys.core.delivered + Settling(s.box) <= t.sys.core.delivered + Settling(t.box)
    requires forall e | e in t.checked :: e in s.checked
    ensures Tidy(own, t)
  {
  }

  lemma AdoptTidy(own: string -> int, s: Wire, sys: D.System)
    requires Base(s) && Tidy(own, s) && DeliverySteps.Ready(sys) && DeliverySteps.Advanced(s.sys, sys, {})
    requires Ids(sys.core.pending) <= Ids(s.sys.core.pending)
    ensures Tidy(own, Adopt(s, sys))
  {
    LessTidy(own, s, Adopt(s, sys));
  }

  /** An event of the active version comes in. */
  lemma GainTidy(own: string -> int, s: Wire, t: Wire, e: Event)
    requires Tidy(own, s) && Smooth(t) && t.sys.core.active == s.sys.core.active == Some(e.version) && e in s.checked
    requires Entered(t) <= Entered(s) + {e.id} && t.box.proof == s.box.proof
    requires s.sys.core.delivered + Settling(s.box) <= t.sys.core.delivered + Settling(t.box)
    requires forall x | x in t.checked :: x in s.checked
    ensures Tidy(own, t)
  {
    forall x | x in t.checked ensures Harmless(t, x) { assert Agree(s.sys.core, x, e); }
  }

  lemma EnterTidy(own: string -> int, s: Wire, e: Event)
    requires Base(s) && Tidy(own, s) && e in s.checked
    ensures Tidy(own, Through(s, Enter(e), D.DoIngest(e)))
  {
    var mid := s.(checked := s.checked - multiset{e});
    var sys := D.Next(s.sys, D.DoIngest(e));
    DeliverySteps.IngestStep(s.sys, e);
    DeliverySteps.IngestIds(s.sys, e);
    assert Through(s, Enter(e), D.DoIngest(e)) == Adopt(mid, sys);
    if DeliverySteps.Admitted(s.sys.core, e) == {} {
      LessTidy(own, s, mid);
      AdoptTidy(own, mid, sys);
    } else {
      assert Harmless(s, e);
      AdoptGains(own, s, mid, sys, e);
    }
  }

  lemma AdoptGains(own: string -> int, s: Wire, mid: Wire, sys: D.System, e: Event)
    requires Base(s) && Tidy(own, s) && e in s.checked && mid == s.(checked := s.checked - multiset{e})
    requires s.sys.core.active == Some(e.version) && (e.id in s.box.proof ==> e.id in Settling(s.box))
    requires DeliverySteps.Ready(sys) && DeliverySteps.Advanced(s.sys, sys, {e})
    requires Ids(sys.core.pending) == Ids(s.sys.core.pending) + {e.id}
    ensures Tidy(own, Adopt(mid, sys))
  {
    assert e.id in s.box.proof ==> e.id in Ids(s.sys.core.pending);
    GainTidy(own, s, Adopt(mid, sys), e);
  }

  lemma QuietStepTidy(own: string -> int, s: Wire, step: Step)
    requires Base(s) && Tidy(own, s) && (step.Status? || step.Flush?)
    ensures Tidy(own, Next(s, step))
  {
    var core := CoreStep(step).value;
    DeliverySteps.CoreStep(s.sys, core);
    SamePending(s.sys, core);
    AdoptTidy(own, s, D.Next(s.sys, core));
  }

  lemma SamePending(s: D.System, core: D.Step)
    requires core.DoStatus? || core.DoFlush?
    ensures D.Next(s, core).core.pending == s.core.pending
  {
  }

  lemma AnnounceTidy(own: string -> int, s: Wire, version: int)
    requires Base(s) && Tidy(own, s) && QuietSwitch(s, Announce(version))
    ensures Tidy(own, Announced(s, version))
  {
    DeliverySteps.BindStep(s.sys, version);
    if s.sys.core.active != Some(version) {
      RelabelledMembers(s.sys.core.pending, version);
      SwitchTidy(own, s, Announced(s, version), version);
    } else {
      LessTidy(own, s, Announced(s, version));
    }
  }

  lemma SwitchTidy(own: string -> int, s: Wire, t: Wire, version: int)
    requires Base(s) && Tidy(own, s) && s.box.phase.Idle? && t.box == s.box && t.sys.air == []
    requires s.sys.core.active.None? || s.sys.core.active.value < version
    requires t.sys.core.active == Some(version) && t.sys.core.pending == []
    requires forall e | e in t.checked ::
               e in s.checked || (e.version == version && e.id in Ids(s.sys.core.pending))
    ensures Tidy(own, t)
  {
    forall e | e in t.checked ensures Harmless(t, e) {
      if e in s.checked { assert Harmless(s, e); }
    }
    forall a, b | a in t.checked && b in t.checked ensures Agree(t.sys.core, a, b) {
      if a in s.checked && b in s.checked {
        assert Agree(s.sys.core, a, b);
      } else if a in s.checked {
        assert Harmless(s, a);
      } else if b in s.checked {
        assert Harmless(s, b);
      }
    }
  }

  /** An event that was let through because its receipt bears no marker. */
  lemma LetTidy(own: string -> int, s: Wire, e: Event, key: Key)
    requires Tidy(own, s) && e.id !in s.box.proof
    requires !(MAIL_PREFIX <= e.id) ==> e.version == own(e.id)
    requires MAIL_PREFIX <= e.id ==> e.id !in Entered(s) && forall x | x in s.checked :: x.id != e.id
    ensures Tidy(own, Let(s, e, key))
  {
    var t := Let(s, e, key);
    forall a, b | a in t.checked && b in t.checked ensures Agree(t.sys.core, a, b) {
      if a in s.checked && b in s.checked { assert Agree(s.sys.core, a, b); }
    }
  }

  lemma MailTidy(own: string -> int, s: Wire, version: int, summary: Summary, created: real, taken: bool)
    requires Base(s) && Tidy(own, s) && KnownLogged(s)
    ensures Tidy(own, MailChecked(s, version, summary, created, taken))
  {
    if Deliverable(summary) && summary.messageId.value !in s.seen {
      var t := s.(seen := s.seen + {summary.messageId.value});
      var e := MailEvent(version, summary, created);
      NewMailId(s, summary.messageId.value);
      EnteredKeyed(s, e.id);
      assert MAIL_PREFIX <= e.id;
      LessTidy(own, s, t);
      LetTidy(own, t, e, Key(summary.projectKey, summary.mailName, summary.messageId.value));
    }
  }

  lemma EnteredKeyed(s: Wire, id: string)
    requires Base(s) && KnownLogged(s)
    ensures id in Entered(s) ==> id in s.keys
  {
    if id in Ids(s.sys.core.pending) {
      IdsMember(s.sys.core.pending, id);
      var i :| 0 <= i < |s.sys.core.pending| && s.sys.core.pending[i].id == id;
      assert KeyedAs(s.keys, s.sys.core.pending[i]);
    }
  }

  lemma ControlTidy(own: string -> int, s: Wire, id: string, text: string, created: real)
    requires Base(s) && Tidy(own, s) && KnownLogged(s) && Fine(s)
    ensures Tidy(own, ControlChecked(s, own(id), id, text, created))
  {
    if !(MAIL_PREFIX <= id) && !IsPrompted(s.box.ledger, ControlKey(id)) {
      if id in s.box.proof {
        assert id in Known(s.box);
        ControlKeyShape(id, s.keys[id]);
      }
      LetTidy(own, s, ControlEvent(own(id), id, text, created), ControlKey(id));
    }
  }

  lemma MovedTidy(own: string -> int, s: Wire, ok: bool)
    requires Base(s) && Tidy(own, s) && !s.box.phase.Returned? && !Moved(s, ok).failed
    ensures Tidy(own, Moved(s, ok))
  {
    MovedSmooth(s, ok);
    LessTidy(own, s, Moved(s, ok));
  }

  lemma MovedSmooth(s: Wire, ok: bool)
    requires Base(s) && Smooth(s) && !s.box.phase.Returned? && !Moved(s, ok).failed
    ensures Smooth(Moved(s, ok)) && Entered(Moved(s, ok)) == Entered(s)
    ensures Moved(s, ok).box.proof == s.box.proof + Settling(Moved(s, ok).box)
  {
    if s.box.phase.Marking? {
      MarkedSmooth(s, ok);
    } else {
      UnmarkedSmooth(s, ok);
    }
  }

  lemma UnmarkedSmooth(s: Wire, ok: bool)
    requires Smooth(s) && !s.box.phase.Returned? && !s.box.phase.Marking?
    ensures var b := Micro(s.box, ok);
            && b.proof == s.box.proof && b.pendingMarks == map[] && !b.phase.Recovering? && b.phase != Returned(true)
            && (b.phase.Marking? ==> b.phase.good)
  {
  }

  lemma MarkedSmooth(s: Wire, ok: bool)
    requires Base(s) && Smooth(s) && s.box.phase.Marking? && !Moved(s, ok).failed
    ensures Smooth(Moved(s, ok)) && Entered(Moved(s, ok)) == Entered(s)
    ensures Moved(s, ok).box.proof == s.box.proof + Settling(Moved(s, ok).box)
  {
    assert Ids(s.box.batch) <= Ids(s.sys.core.pending);
  }

  lemma FinishedTidy(own: string -> int, s: Wire)
    requires Base(s) && Tidy(own, s) && s.box.phase.Returned?
    ensures Tidy(own, Finished(s))
  {
    DeliverySteps.CloseStep(s.sys, s.box.phase.accepted);
    assert Ids(s.box.batch) <= Ids(s.sys.core.pending);
    LessTidy(own, s, Finished(s));
  }

  lemma NextTidy(own: string -> int, s: Wire, step: Step)
    requires Base(s) && Fine(s) && KnownLogged(s) && Tidy(own, s)
    requires OrderlyStep(own, s, step) && !Next(s, step).failed
    ensures Tidy(own, Next(s, step))
  {
    if CoreStep(step).Some? {
      ThroughTidy(own, s, step);
    } else {
      match step
      case Announce(version) => AnnounceTidy(own, s, version);
      case CheckMail(version, summary, created, taken) => MailTidy(own, s, version, summary, created, taken);
      case CheckControl(_, id, text, created) => ControlTidy(own, s, id, text, created);
      case Advance(ok) => AdvancedTidy(own, s, ok);
      case Pause(key) => LessTidy(own, s, Paused(s, key));
      case Crash =>
    }
  }

  lemma ThroughTidy(own: string -> int, s: Wire, step: Step)
    requires Base(s) && Tidy(own, s) && CoreStep(step).Some?
    ensures Tidy(own, Next(s, step))
  {
    match step
    case Enter(e) => if e in s.checked { EnterTidy(own, s, e); }
    case _ => QuietStepTidy(own, s, step);
  }

  lemma AdvancedTidy(own: string -> int, s: Wire, ok: bool)
    requires Base(s) && Tidy(own, s) && !Advanced(s, ok).failed
    ensures Tidy(own, Advanced(s, ok))
  {
    if s.box.phase.Returned? { FinishedTidy(own, s); } else { MovedTidy(own, s, ok); }
  }
}

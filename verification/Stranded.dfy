/**
 What a failing attempt leaves behind.

 The targets before the failing one keep their attempts, although nobody was called.  As long as the
 process lives the events are pending and tried again.  After a crash the markers keep them out for ever.
 */
module Stranded {
  import opened Prelude
  import opened ReceiptKeys
  import opened Delivery
  import opened ProofAdapter
  import opened AdapterOutcomes
  import opened Wiring
  import opened WiringRuns
  import D = DeliveryRuns
  import DeliverySteps

  // ---------------------------------------------------------------- a marker nobody will touch

  ghost predicate Apart(events: seq<Event>, key: Key) {
    forall e | e in events :: Target(e) != Some(key)
  }

  /** The receipt bears a marker, and no event at hand belongs to it. */
  ghost predicate Left(s: Wire, key: Key) {
    && IsPrompted(s.box.ledger, key)
    && Apart(s.sys.core.pending, key) && Apart(s.box.batch, key)
    && (forall e | e in s.checked :: Target(e) != Some(key))
  }

  lemma RelabelledApart(events: seq<Event>, version: int, key: Key)
    requires Apart(events, key)
    ensures Apart(Relabelled(events, version), key)
  {
    RelabelledMembers(events, version);
    forall x | x in Relabelled(events, version) ensures Target(x) != Some(key) {
      var e :| e in events && x == e.(version := version);
      assert Target(e) == Target(x);
    }
  }

  lemma AnnouncedLeft(s: Wire, version: int, key: Key)
    requires Base(s) && Left(s, key)
    ensures Left(Announced(s, version), key)
  {
    DeliverySteps.BindStep(s.sys, version);
    RelabelledApart(Bind(s.sys.core, version).1, version, key);
  }

  lemma AdoptLeft(s: Wire, sys: D.System, extra: set<Event>, key: Key)
    requires Left(s, key) && DeliverySteps.Advanced(s.sys, sys, extra) && Joined(s)
    requires forall e | e in extra :: Target(e) != Some(key)
    ensures Left(Adopt(s, sys), key)
  {
  }

  lemma ThroughLeft(s: Wire, step: Step, key: Key)
    requires Base(s) && Left(s, key) && CoreStep(step).Some?
    ensures Left(Through(s, step, CoreStep(step).value), key)
  {
    var core := CoreStep(step).value;
    DeliverySteps.CoreStep(s.sys, core);
    if !step.Enter? {
      AdoptLeft(s, D.Next(s.sys, core), {}, key);
    } else if step.event in s.checked {
      AdoptLeft(s.(checked := s.checked - multiset{step.event}), D.Next(s.sys, core),
                DeliverySteps.Admitted(s.sys.core, step.event), key);
    }
  }

  lemma FinishedLeft(s: Wire, key: Key)
    requires Base(s) && Left(s, key) && s.box.phase.Returned?
    ensures Left(Finished(s), key)
  {
    DeliverySteps.CloseStep(s.sys, s.box.phase.accepted);
    forall e | e in Finished(s).sys.core.pending ensures Target(e) != Some(key) {
      if e !in s.sys.core.pending {
        var x :| x in s.box.batch && e == x.(version := s.sys.core.active.value);
        assert Target(x) == Target(e);
      }
    }
  }

  lemma MicroKeepsMark(b: Box, ok: bool, key: Key)
    requires IsPrompted(b.ledger, key) && (b.phase.Clearing? ==> key !in b.targets)
    ensures IsPrompted(Micro(b, ok).ledger, key)
  {
  }

  lemma MovedLeft(s: Wire, ok: bool, key: Key)
    requires Base(s) && Left(s, key) && !s.box.phase.Returned?
    ensures Left(Moved(s, ok), key)
    ensures key in Moved(s, ok).log ==> key in s.log
  {
    MicroShape(s.box, ok);
    if s.box.phase.Clearing? || s.box.phase.Calling? { ApartTargets(s.box.batch, s.box.targets, key); }
    MicroKeepsMark(s.box, ok, key);
  }

  lemma ApartTargets(events: seq<Event>, targets: seq<Key>, key: Key)
    requires Apart(events, key) && Targets(events) == Some(targets)
    ensures key !in targets
  {
    forall i | 0 <= i < |targets| ensures targets[i] != key { assert events[i] in events; }
  }

  lemma CheckedLeft(s: Wire, step: Step, key: Key)
    requires Left(s, key) && (step.CheckMail? || step.CheckControl?)
    ensures Left(Next(s, step), key)
  {
    if step.CheckMail? && Deliverable(step.summary) {
      var e := MailEvent(step.version, step.summary, step.created);
      assert MAIL_PREFIX <= e.id;
      if Target(e) != Some(key) {
        LetLeft(s.(seen := s.seen + {step.summary.messageId.value}), e, Target(e).value, key);
      }
    }
  }

  lemma LetLeft(s: Wire, e: Event, own: Key, key: Key)
    requires Left(s, key) && Target(e) != Some(key)
    ensures Left(Let(s, e, own), key)
  {
  }

  lemma NextLeft(s: Wire, step: Step, key: Key)
    requires Base(s) && Left(s, key) && step != Pause(key)
    ensures Left(Next(s, step), key) && (key in Next(s, step).log ==> key in s.log)
  {
    if CoreStep(step).Some? {
      ThroughLeft(s, step, key);
    } else {
      match step
      case Announce(version) => AnnouncedLeft(s, version, key);
      case CheckMail(_, _, _, _) => CheckedLeft(s, step, key);
      case CheckControl(_, _, _, _) => CheckedLeft(s, step, key);
      case Advance(ok) => if s.box.phase.Returned? { FinishedLeft(s, key); } else { MovedLeft(s, ok, key); }
      case _ =>
    }
  }

  /** Unless its receipt is paused, such a message or control event is never let through again in any
      life, and nobody is prompted for it. */
  lemma {:induction false} LeftForever(steps: seq<Step>, more: seq<Step>, key: Key)
    requires steps <= more && Left(Run(steps), key)
    requires forall i | |steps| <= i < |more| :: more[i] != Pause(key)
    ensures Left(Run(more), key) && (key in Run(more).log ==> key in Run(steps).log)
    decreases |more|
  {
    if |steps| == |more| {
      assert steps == more;
    } else {
      var front := more[..|more| - 1];
      LeftForever(steps, front, key);
      Reachable(front);
      NextLeft(Run(front), more[|more| - 1], key);
    }
  }

  // ---------------------------------------------------------------- a failing attempt and a crash

  lemma CrashedLeft(s: Wire, key: Key)
    requires IsPrompted(s.box.ledger, key)
    ensures Left(Next(s, Crash), key) && Next(s, Crash).log == s.log
  {
  }

  /** `more` goes on from `steps` without a pause of this receipt. */
  ghost predicate Undisturbed(steps: seq<Step>, more: seq<Step>, key: Key) {
    steps <= more && forall j | |steps| <= j < |more| :: more[j] != Pause(key)
  }

  /** A delivery whose first failing attempt is at position `i`, then a crash: every message before it that
      nobody was prompted for stays without a prompt for ever, unless its receipt is paused. */
  lemma FailedAttemptStrands(steps: seq<Step>, oracle: nat -> bool, used: nat, key: Key)
    returns (i: nat, crashed: seq<Step>)
    requires var b := Run(steps).box; b.phase == Attempting(0) && !Succeed(oracle, used, |b.targets|)
    ensures i < |Run(steps).box.targets| && Succeed(oracle, used, i) && !oracle(used + i)
    ensures steps <= crashed && Run(crashed).log == Run(steps).log
    ensures key in Run(steps).box.targets[..i] && key !in Run(steps).log ==>
              forall more | Undisturbed(crashed, more, key) :: Left(Run(more), key) && key !in Run(more).log
  {
    i := FailedAttemptStops(Run(steps).box, oracle, used);
    var failed := DeliverIsAdvances(steps, oracle, used);
    crashed := failed + [Crash];
    CrashKeepsLog(failed);
    if key in Run(steps).box.targets[..i] && key !in Run(steps).log {
      StoppedMarks(Run(steps).box, i, key);
      CrashLeaves(failed, key);
      NeverAgain(crashed, key);
    }
  }

  lemma StoppedMarks(b: Box, i: nat, key: Key)
    requires b.phase == Attempting(0) && i < |b.targets| && key in b.targets[..i]
    ensures IsPrompted(StoppedAt(b, i).ledger, key)
  {
    BetweenIs(b.targets, 0, i);
  }

  lemma CrashKeepsLog(steps: seq<Step>)
    ensures Run(steps + [Crash]).log == Run(steps).log
  {
    RunAppend(steps, Crash);
  }

  lemma CrashLeaves(steps: seq<Step>, key: Key)
    requires IsPrompted(Run(steps).box.ledger, key)
    ensures Left(Run(steps + [Crash]), key)
  {
    RunAppend(steps, Crash);
    CrashedLeft(Run(steps), key);
  }

  lemma NeverAgain(steps: seq<Step>, key: Key)
    requires Left(Run(steps), key) && key !in Run(steps).log
    ensures forall more | Undisturbed(steps, more, key) :: Left(Run(more), key) && key !in Run(more).log
  {
    forall more | Undisturbed(steps, more, key) ensures Left(Run(more), key) && key !in Run(more).log {
      LeftForever(steps, more, key);
    }
  }
}

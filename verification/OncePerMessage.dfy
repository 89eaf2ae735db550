/**
 One prompt for each Hub message, whichever mailbox it is seen in.

 Within one life of the process the set of seen ids guarantees that.  Over several lives the markers do,
 but they are kept by mailbox: the guarantee holds exactly when a message is always checked under one
 mailbox.
 */
module OncePerMessage {
  import opened Prelude
  import opened ReceiptKeys
  import opened Delivery
  import opened ProofAdapter
  import opened Wiring
  import opened WiringRuns
  import opened OrderlySteps
  import opened OrderlyRuns
  import D = DeliveryRuns
  import DeliverySteps

  predicate IsMail(k: Key) {
    k.project != CONTROL_PROJECT
  }

  /** The event id of a key, if any event may bear it. */
  function EventIdOf(k: Key): Option<string> {
    if !IsMail(k) then Some(k.recipient) else if k.id >= 0 then Some(MailId(k.id)) else None
  }

  // ---------------------------------------------------------------- one life

  /** How long the log was when the current life began. */
  ghost function LifeStart(steps: seq<Step>): nat {
    if steps == [] then 0
    else
      var front := steps[..|steps| - 1];
      if steps[|steps| - 1].Crash? then |Run(front).log| else LifeStart(front)
  }

  ghost predicate Held(keys: map<string, Key>, k: Key) {
    var id := EventIdOf(k);
    id.Some? && id.value in keys && keys[id.value] == k
  }

  /** What this life accepted, it let through. */
  ghost predicate LogHeld(s: Wire, start: nat) {
    start <= |s.log| && forall i | start <= i < |s.log| :: Held(s.keys, s.log[i])
  }

  lemma MailCheckedHeld(s: Wire, version: int, summary: Summary, created: real, taken: bool, start: nat)
    requires Base(s) && LogHeld(s, start)
    ensures LogHeld(MailChecked(s, version, summary, created, taken), start)
  {
    if Deliverable(summary) && summary.messageId.value !in s.seen { NewMailId(s, summary.messageId.value); }
  }

  lemma ControlCheckedHeld(s: Wire, version: int, id: string, text: string, created: real, start: nat)
    requires Base(s) && LogHeld(s, start)
    ensures LogHeld(ControlChecked(s, version, id, text, created), start)
  {
    if id in s.keys && !(MAIL_PREFIX <= id) { ControlKeyShape(id, s.keys[id]); }
  }

  lemma AcceptHeld(s: Wire, start: nat)
    requires Base(s) && LogHeld(s, start) && s.box.phase.Calling?
    ensures LogHeld(Moved(s, true), start)
  {
    var t := Moved(s, true);
    forall i | start <= i < |t.log| ensures Held(t.keys, t.log[i]) {
      if i >= |s.log| {
        var j := i - |s.log|;
        TargetAt(s, j);
        assert KeyShape(s.box.batch[j].id, s.box.targets[j]);
      }
    }
  }

  lemma NextHeld(s: Wire, step: Step, start: nat)
    requires Base(s) && LogHeld(s, start)
    ensures LogHeld(Next(s, step), if step.Crash? then |s.log| else start)
  {
    if step.CheckMail? {
      MailCheckedHeld(s, step.version, step.summary, step.created, step.taken, start);
    } else if step.CheckControl? {
      ControlCheckedHeld(s, step.version, step.eventId, step.text, step.created, start);
    } else if step.Advance? && s.box.phase.Calling? && step.ok {
      AcceptHeld(s, start);
    }
  }

  lemma {:induction false} AlwaysHeld(steps: seq<Step>)
    ensures LogHeld(Run(steps), LifeStart(steps))
  {
    if steps != [] {
      var front := steps[..|steps| - 1];
      Reachable(front);
      AlwaysHeld(front);
      NextHeld(Run(front), steps[|steps| - 1], LifeStart(front));
    }
  }

  /** On an orderly run without a failing delivered mark: in one life no Hub message is prompted twice, even
      when two mailboxes show it and binding versions change. */
  lemma OncePerMessageInALife(own: string -> int, steps: seq<Step>, i: nat, j: nat)
    requires !Run(steps).failed && Orderly(own, steps) && LifeStart(steps) <= i < j < |Run(steps).log|
    ensures var log := Run(steps).log; IsMail(log[i]) && IsMail(log[j]) ==> log[i].id != log[j].id
  {
    AtMostOnceAcrossCrashes(own, steps);
    AlwaysHeld(steps);
    var s := Run(steps);
    assert Held(s.keys, s.log[i]) && Held(s.keys, s.log[j]);
  }

  // ---------------------------------------------------------------- all lives

  function MailKey(summary: Summary): Key
    requires Deliverable(summary)
  {
    Key(summary.projectKey, summary.mailName, summary.messageId.value)
  }

  /** Every check of message `id` names the mailbox of one of the two summaries. */
  ghost predicate SeenAs(steps: seq<Step>, a: Summary, b: Summary)
    requires Deliverable(a) && Deliverable(b)
  {
    forall i | 0 <= i < |steps| && steps[i].CheckMail? && Deliverable(steps[i].summary)
               && steps[i].summary.messageId == a.messageId ::
      MailKey(steps[i].summary) == MailKey(a) || MailKey(steps[i].summary) == MailKey(b)
  }

  ghost predicate OneOf(k: Key, a: Summary, b: Summary)
    requires Deliverable(a) && Deliverable(b)
  {
    IsMail(k) && k.id == a.messageId.value ==> k == MailKey(a) || k == MailKey(b)
  }

  ghost predicate AllOneOf(s: Wire, a: Summary, b: Summary)
    requires Deliverable(a) && Deliverable(b)
  {
    (forall id | id in s.keys :: OneOf(s.keys[id], a, b)) && (forall k | k in s.log :: OneOf(k, a, b))
  }

  lemma AcceptOneOf(s: Wire, a: Summary, b: Summary)
    requires Base(s) && s.box.phase.Calling? && Deliverable(a) && Deliverable(b) && AllOneOf(s, a, b)
    ensures AllOneOf(Moved(s, true), a, b)
  {
    forall j | 0 <= j < |s.box.targets| ensures OneOf(s.box.targets[j], a, b) { TargetAt(s, j); }
  }

  lemma CheckedOneOf(s: Wire, step: Step, a: Summary, b: Summary)
    requires Deliverable(a) && Deliverable(b) && AllOneOf(s, a, b) && (step.CheckMail? || step.CheckControl?)
    requires step.CheckMail? && Deliverable(step.summary) ==> OneOf(MailKey(step.summary), a, b)
    ensures AllOneOf(Next(s, step), a, b)
  {
  }

  lemma OthersKeep(s: Wire, step: Step)
    requires !step.CheckMail? && !step.CheckControl? && !(step.Advance? && s.box.phase.Calling? && step.ok)
    ensures var t := Next(s, step); t.log == s.log && (t.keys == s.keys || t.keys == map[])
  {
    if CoreStep(step).Some? {
      assert Next(s, step) == Through(s, step, CoreStep(step).value);
    } else {
      match step
      case Announce(version) => assert Next(s, step) == Announced(s, version);
      case Advance(ok) => assert Next(s, step) == Advanced(s, ok);
      case _ =>
    }
  }

  lemma OtherOneOf(s: Wire, step: Step, a: Summary, b: Summary)
    requires Deliverable(a) && Deliverable(b) && AllOneOf(s, a, b) && !step.CheckMail? && !step.CheckControl?
    requires !(step.Advance? && s.box.phase.Calling? && step.ok)
    ensures AllOneOf(Next(s, step), a, b)
  {
    OthersKeep(s, step);
  }

  lemma NextOneOf(s: Wire, step: Step, a: Summary, b: Summary)
    requires Base(s) && Deliverable(a) && Deliverable(b) && AllOneOf(s, a, b)
    requires step.CheckMail? && Deliverable(step.summary) ==> OneOf(MailKey(step.summary), a, b)
    ensures AllOneOf(Next(s, step), a, b)
  {
    if step.CheckMail? || step.CheckControl? {
      CheckedOneOf(s, step, a, b);
    } else if step.Advance? && s.box.phase.Calling? && step.ok {
      AcceptOneOf(s, a, b);
    } else {
      OtherOneOf(s, step, a, b);
    }
  }

  lemma {:induction false} AlwaysOneOf(steps: seq<Step>, a: Summary, b: Summary)
    requires Deliverable(a) && Deliverable(b) && a.messageId == b.messageId && SeenAs(steps, a, b)
    ensures AllOneOf(Run(steps), a, b)
  {
    if steps != [] {
      var front, last := steps[..|steps| - 1], steps[|steps| - 1];
      assert SeenAs(front, a, b) by {
        assert forall i | 0 <= i < |front| :: front[i] == steps[i];
      }
      Reachable(front);
      AlwaysOneOf(front, a, b);
      NextOneOf(Run(front), last, a, b);
    }
  }

  ghost predicate PromptedOnce(log: seq<Key>, id: int) {
    forall i, j | 0 <= i < j < |log| && IsMail(log[i]) && IsMail(log[j]) :: !(log[i].id == id && log[j].id == id)
  }

  // ---------------------------------------------------------------- two mailboxes

  /** The process has just started. */
  ghost predicate Started(s: Wire) {
    && s.sys == D.INITIAL && s.seen == {} && s.checked == multiset{}
    && s.box == Box(s.box.ledger, map[], {}, [], [], Idle)
  }

  /** A continuation that is in order and checks mail as this summary only. */
  ghost predicate Continues(own: string -> int, steps: seq<Step>, more: seq<Step>, summary: Summary) {
    && steps <= more && (Orderly(own, steps) ==> Orderly(own, more))
    && forall i | |steps| <= i < |more| && more[i].CheckMail? :: more[i].summary == summary
  }

  lemma Continued(own: string -> int, steps: seq<Step>, step: Step, summary: Summary)
    requires OrderlyStep(own, Run(steps), step) && (step.CheckMail? ==> step.summary == summary)
    ensures Continues(own, steps, steps + [step], summary) && Run(steps + [step]) == Next(Run(steps), step)
  {
    OrderlyAppend(own, steps, step);
    RunAppend(steps, step);
  }

  lemma FirstAnnounced(s: Wire, version: int)
    requires Started(s)
    ensures var t := Next(s, Announce(version));
            && t.sys.core.active == Some(version) && t.sys.core.pending == [] && t.sys.core.delivered == {}
            && t.sys.air == [] && t.seen == {} && t.box == s.box && t.log == s.log && t.failed == s.failed
  {
  }

  lemma LetThrough(own: string -> int, steps: seq<Step>, version: int, summary: Summary) returns (more: seq<Step>)
    requires Deliverable(summary) && Started(Run(steps)) && !IsPrompted(Run(steps).box.ledger, MailKey(summary))
    ensures Continues(own, steps, more, summary)
    ensures var s, t := Run(steps), Run(more);
            && t.log == s.log && t.failed == s.failed && t.box == s.box
            && MailEvent(version, summary, 0.0) in t.checked && t.sys.air == []
            && t.sys.core.active == Some(version) && t.sys.core.pending == [] && t.sys.core.delivered == {}
  {
    var bound := steps + [Announce(version)];
    Continued(own, steps, Announce(version), summary);
    FirstAnnounced(Run(steps), version);
    more := bound + [CheckMail(version, summary, 0.0, false)];
    Continued(own, bound, CheckMail(version, summary, 0.0, false), summary);
  }

  /** The ingest makes the message the only pending one; a delivery starts now or at the next status. */
  lemma Ingested(own: string -> int, steps: seq<Step>, e: Event, summary: Summary) returns (more: seq<Step>)
    requires var s := Run(steps);
             && e in s.checked && s.box.phase.Idle?
             && s.sys.core.active == Some(e.version) && s.sys.core.pending == [] && s.sys.core.delivered == {}
    ensures Continues(own, steps, more, summary)
    ensures var s, t := Run(steps), Run(more);
            && t.log == s.log && t.failed == s.failed
            && t.box == s.box.(batch := [e], targets := [], phase := Entered)
  {
    more := steps + [Enter(e)];
    Continued(own, steps, Enter(e), summary);
    Reachable(steps);
    OnlyPending(Run(steps), e);
    if Run(more).box.phase.Idle? { more := StatusStarts(own, more, e, summary); }
  }

  lemma StatusStarts(own: string -> int, steps: seq<Step>, e: Event, summary: Summary) returns (more: seq<Step>)
    requires var s := Run(steps); s.box.phase.Idle? && s.sys.air == [] && s.sys.core.pending == [e]
    ensures Continues(own, steps, more, summary)
    ensures var s, t := Run(steps), Run(more);
            && t.log == s.log && t.failed == s.failed
            && t.box == s.box.(batch := [e], targets := [], phase := Entered)
  {
    more := steps + [Status("idle")];
    Continued(own, steps, Status("idle"), summary);
    Reachable(steps);
    DeliverySteps.IdleLaunches(Run(steps).sys);
  }

  lemma OnlyPending(s: Wire, e: Event)
    requires Base(s) && e in s.checked && s.box.phase.Idle?
    requires s.sys.core.active == Some(e.version) && s.sys.core.pending == [] && s.sys.core.delivered == {}
    ensures var t := Next(s, Enter(e));
            && t.log == s.log && t.failed == s.failed && t.sys.core.pending == [e]
            && (if t.box.phase.Idle? then t.box == s.box && t.sys.air == []
                else t.box == s.box.(batch := [e], targets := [], phase := Entered))
  {
    OnlyOne(s.sys, e);
    assert Next(s, Enter(e)) == Adopt(s.(checked := s.checked - multiset{e}), D.Next(s.sys, D.DoIngest(e)));
  }

  lemma OnlyOne(s: D.System, e: Event)
    requires DeliverySteps.Ready(s) && s.air == []
    requires s.core.active == Some(e.version) && s.core.pending == [] && s.core.delivered == {}
    ensures var t := D.Next(s, D.DoIngest(e));
            t.core.pending == [e] && (t.air != [] ==> t.air[0].flight.events == [e])
  {
    D.IngestNewIs(s, e);
    assert [] + [e] == [e];
  }

  lemma MailTarget(version: int, summary: Summary)
    requires Deliverable(summary)
    ensures Targets([MailEvent(version, summary, 0.0)]) == Some([MailKey(summary)])
  {
    var e := MailEvent(version, summary, 0.0);
    var none: seq<Event> := [];
    assert MAIL_PREFIX <= e.id && Target(e) == Some(MailKey(summary));
    assert [e][..0] == none && Targets(none) == Some([]) && [] + [MailKey(summary)] == [MailKey(summary)];
  }

  /** The only message of a delivery is attempted, */
  lemma Attempted(b: Box, e: Event, k: Key)
    requires b.phase.Entered? && b.batch == [e] && Targets(b.batch) == Some([k]) && b.pendingMarks == map[]
    ensures Micro(Micro(Micro(b, true), true), true) ==
            b.(ledger := Ledger(b.ledger.attempts + {k}, b.ledger.delivered), targets := [k], phase := Calling)
    ensures Micro(b, true).phase.Attempting? && Micro(Micro(b, true), true).phase.Attempting?
  {
    assert e in [e];
    assert Micro(b, true) == b.(targets := [k], phase := Attempting(0));
  }

  lemma Succeeds(own: string -> int, steps: seq<Step>, summary: Summary) returns (more: seq<Step>)
    requires !Run(steps).box.phase.Returned?
    ensures Continues(own, steps, more, summary) && Run(more) == Moved(Run(steps), true)
  {
    more := steps + [Advance(true)];
    Continued(own, steps, Advance(true), summary);
  }

  /** and accepted. */
  lemma FirstAccepted(own: string -> int, steps: seq<Step>, version: int, summary: Summary) returns (more: seq<Step>)
    requires Deliverable(summary) && Run(steps).box.phase.Entered? && Run(steps).box.pendingMarks == map[]
    requires Run(steps).box.batch == [MailEvent(version, summary, 0.0)]
    ensures Continues(own, steps, more, summary)
    ensures var s, t := Run(steps), Run(more);
            && t.log == s.log + [MailKey(summary)] && t.failed == s.failed
            && t.box.ledger == Ledger(s.box.ledger.attempts + {MailKey(summary)}, s.box.ledger.delivered)
  {
    MailTarget(version, summary);
    Attempted(Run(steps).box, MailEvent(version, summary, 0.0), MailKey(summary));
    var one := Succeeds(own, steps, summary);
    var two := Succeeds(own, one, summary);
    var three := Succeeds(own, two, summary);
    more := Succeeds(own, three, summary);
  }

  lemma PromptOne(own: string -> int, steps: seq<Step>, version: int, summary: Summary) returns (more: seq<Step>)
    requires Deliverable(summary) && Started(Run(steps)) && !IsPrompted(Run(steps).box.ledger, MailKey(summary))
    ensures Continues(own, steps, more, summary)
    ensures var s, t := Run(steps), Run(more);
            && t.log == s.log + [MailKey(summary)] && t.failed == s.failed
            && t.box.ledger == Ledger(s.box.ledger.attempts + {MailKey(summary)}, s.box.ledger.delivered)
  {
    var checked := LetThrough(own, steps, version, summary);
    var entered := Ingested(own, checked, MailEvent(version, summary, 0.0), summary);
    more := FirstAccepted(own, entered, version, summary);
  }

  /** A life prompts the message in one mailbox, the next life sees it first in the other. */
  lemma TwoMailboxesPromptTwice(own: string -> int, version: int, a: Summary, b: Summary) returns (steps: seq<Step>)
    requires Deliverable(a) && Deliverable(b) && a.messageId == b.messageId && MailKey(a) != MailKey(b)
    ensures SeenAs(steps, a, b) && Orderly(own, steps) && !Run(steps).failed
    ensures Run(steps).log == [MailKey(a), MailKey(b)]
  {
    var first := PromptOne(own, [], version, a);
    var restarted := first + [Crash];
    Continued(own, first, Crash, a);
    steps := PromptOne(own, restarted, version, b);
    assert [] + [MailKey(a)] == [MailKey(a)] && [MailKey(a)] + [MailKey(b)] == [MailKey(a), MailKey(b)];
  }

  /** Over all restarts a message that is checked in at most two mailboxes is prompted once on every orderly
      run without a failing delivered mark exactly when the two are one. */
  lemma OnceOverRestartsExactly(own: string -> int, a: Summary, b: Summary)
    requires Deliverable(a) && Deliverable(b) && a.messageId == b.messageId
    ensures MailKey(a) == MailKey(b) <==>
            forall steps | SeenAs(steps, a, b) && Orderly(own, steps) && !Run(steps).failed ::
              PromptedOnce(Run(steps).log, a.messageId.value)
  {
    if MailKey(a) == MailKey(b) {
      forall steps | SeenAs(steps, a, b) && Orderly(own, steps) && !Run(steps).failed
        ensures PromptedOnce(Run(steps).log, a.messageId.value)
      {
        AtMostOnceAcrossCrashes(own, steps);
        AlwaysOneOf(steps, a, b);
        OneKeyOnce(Run(steps).log, a);
      }
    } else {
      var steps := TwoMailboxesPromptTwice(own, 1, a, b);
      var log := Run(steps).log;
      assert log[0].id == log[1].id == a.messageId.value && IsMail(log[0]) && IsMail(log[1]);
    }
  }

  lemma OneKeyOnce(log: seq<Key>, a: Summary)
    requires Deliverable(a) && NoDup(log) && forall k | k in log :: OneOf(k, a, a)
    ensures PromptedOnce(log, a.messageId.value)
  {
    assert forall i | 0 <= i < |log| :: log[i] in log;
  }
}

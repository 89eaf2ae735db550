/**
 Proven means marked: over any number of lives and rebinds, an event in the proof set bears the
 delivered mark of its receipt, whichever writes failed on the way, as long as nobody pauses it.
 */
module ProofMarks {
  import opened ReceiptKeys
  import opened Delivery
  import opened ProofAdapter
  import opened Wiring
  import opened WiringRuns
  import opened WriteFailures

  /** This id stands for this receipt in the present life. */
  ghost predicate Stands(keys: map<string, Key>, id: string, key: Key) {
    id in keys && keys[id] == key
  }

  ghost predicate ProvenMarked(s: Wire, key: Key) {
    forall id | id in s.box.proof && Stands(s.keys, id, key) :: key in s.box.ledger.delivered
  }

  /** What an event awaits includes the mark of its own receipt. */
  ghost predicate OwnAwaited(s: Wire, key: Key) {
    forall id | id in s.box.pendingMarks && Stands(s.keys, id, key) :: key in s.box.pendingMarks[id]
  }

  /** As long as no write has failed, the marks tried so far are written. */
  ghost predicate TriedMarked(b: Box, key: Key) {
    match b.phase
    case Marking(n, good) => good && n <= |b.targets| && key in b.targets[..n] ==> key in b.ledger.delivered
    case Recovering(i, j, good) =>
      (&& good && i < |b.batch| && b.batch[i].id in b.pendingMarks
       && j <= |b.pendingMarks[b.batch[i].id]| && key in b.pendingMarks[b.batch[i].id][..j]) ==>
        key in b.ledger.delivered
    case _ => true
  }

  ghost predicate InRange(b: Box) {
    match b.phase
    case Marking(n, _) => n <= |b.targets|
    case Recovering(i, j, _) =>
      i < |b.batch| && b.batch[i].id in b.pendingMarks ==> j <= |b.pendingMarks[b.batch[i].id]|
    case _ => true
  }

  ghost predicate Sound(s: Wire, key: Key) {
    ProvenMarked(s, key) && OwnAwaited(s, key) && TriedMarked(s.box, key) && InRange(s.box)
  }

  // ---------------------------------------------------------------- micro-steps

  lemma TakeOne(keys: seq<Key>, n: nat, key: Key)
    requires n < |keys|
    ensures key in keys[..n + 1] <==> key in keys[..n] || keys[n] == key
  {
    assert keys[..n + 1] == keys[..n] + [keys[n]];
  }

  /** The delivery under way has marked its whole batch. */
  lemma BatchMarked(s: Wire, key: Key)
    requires Base(s) && Sound(s, key) && s.box.phase.Marking? && s.box.phase.n == |s.box.targets|
    ensures Sound(Moved(s, true), key) && Sound(Moved(s, false), key)
  {
    assert s.box.targets[..|s.box.targets|] == s.box.targets;
    AwaitingIs(s.box.pendingMarks, s.box.batch, s.box.targets);
    forall id | id in Ids(s.box.batch) && Stands(s.keys, id, key) ensures key in s.box.targets {
      IdsMember(s.box.batch, id);
      var i :| 0 <= i < |s.box.batch| && s.box.batch[i].id == id;
      TargetAt(s, i);
    }
  }

  lemma MarkingSound(s: Wire, ok: bool, key: Key)
    requires Base(s) && Sound(s, key) && s.box.phase.Marking?
    ensures Sound(Moved(s, ok), key)
  {
    if s.box.phase.n < |s.box.targets| { TakeOne(s.box.targets, s.box.phase.n, key); } else { BatchMarked(s, key); }
  }

  lemma RecoveringSound(s: Wire, ok: bool, key: Key)
    requires Sound(s, key) && s.box.phase.Recovering?
    ensures Sound(Moved(s, ok), key)
  {
    var i, j := s.box.phase.i, s.box.phase.j;
    if i < |s.box.batch| && s.box.batch[i].id in s.box.pendingMarks {
      var marks := s.box.pendingMarks[s.box.batch[i].id];
      if j < |marks| { TakeOne(marks, j, key); } else { assert marks[..|marks|] == marks; }
    }
  }

  lemma MovedSound(s: Wire, ok: bool, key: Key)
    requires Base(s) && Sound(s, key) && !s.box.phase.Returned?
    ensures Sound(Moved(s, ok), key)
  {
    if s.box.phase.Marking? {
      MarkingSound(s, ok, key);
    } else if s.box.phase.Recovering? {
      RecoveringSound(s, ok, key);
    }
  }

  // ---------------------------------------------------------------- other steps

  lemma LetSound(s: Wire, e: Event, own: Key, key: Key)
    requires Sound(s, key) && (e.id in s.keys ==> s.keys[e.id] == own) && Known(s.box) <= s.keys.Keys
    ensures Sound(Let(s, e, own), key)
  {
  }

  lemma CheckedSound(s: Wire, step: Step, key: Key)
    requires Base(s) && KnownLogged(s) && Sound(s, key) && (step.CheckMail? || step.CheckControl?)
    ensures Sound(Next(s, step), key)
  {
    if step.CheckMail? {
      if Deliverable(step.summary) && step.summary.messageId.value !in s.seen {
        NewMailId(s, step.summary.messageId.value);
        var e := MailEvent(step.version, step.summary, step.created);
        LetSound(s.(seen := s.seen + {step.summary.messageId.value}), e,
                 Key(step.summary.projectKey, step.summary.mailName, step.summary.messageId.value), key);
      }
    } else if !(MAIL_PREFIX <= step.eventId) {
      if step.eventId in s.keys { ControlKeyShape(step.eventId, s.keys[step.eventId]); }
      LetSound(s, ControlEvent(step.version, step.eventId, step.text, step.created), ControlKey(step.eventId), key);
    }
  }

  lemma NextSound(s: Wire, step: Step, key: Key)
    requires Base(s) && KnownLogged(s) && Sound(s, key) && step != Pause(key)
    ensures Sound(Next(s, step), key)
  {
    if CoreStep(step).None? {
      match step
      case Advance(ok) => if !s.box.phase.Returned? { MovedSound(s, ok, key); }
      case CheckMail(_, _, _, _) => CheckedSound(s, step, key);
      case CheckControl(_, _, _, _) => CheckedSound(s, step, key);
      case _ =>
    }
  }

  // ---------------------------------------------------------------- all runs

  /** Nobody pauses this receipt. */
  ghost predicate Unpaused(steps: seq<Step>, key: Key) {
    Pause(key) !in steps
  }

  lemma {:induction false} RunSound(steps: seq<Step>, key: Key)
    requires Unpaused(steps, key)
    ensures Sound(Run(steps), key)
  {
    if steps != [] {
      var front := steps[..|steps| - 1];
      assert forall step | step in front :: step in steps;
      RunSound(front, key);
      Reachable(front);
      ProofIsAccepted(front);
      NextSound(Run(front), steps[|steps| - 1], key);
    }
  }

  /** On every run without a pause of its receipt, an event in the proof set bears the delivered mark.  So a
      restart, which forgets the proof set, does not let it through again; and an event that awaits its
      marks awaits its own. */
  lemma ProvenIsMarked(steps: seq<Step>, id: string)
    requires id in Run(steps).keys && Unpaused(steps, Run(steps).keys[id])
    ensures var s := Run(steps);
            && (id in s.box.proof ==> s.keys[id] in s.box.ledger.delivered)
            && (id in s.box.pendingMarks ==> s.keys[id] in s.box.pendingMarks[id])
  {
    RunSound(steps, Run(steps).keys[id]);
  }

  /** On every run, the retry of a batch whose events all await their marks prompts nobody, however many of
      its writes fail. */
  lemma AwaitingRetryIsSilent(steps: seq<Step>, oracle: nat -> bool, used: nat) returns (more: seq<Step>)
    requires var b := Run(steps).box; b.phase.Entered? && forall e | e in b.batch :: e.id in b.pendingMarks
    ensures Advances(steps, more)
    ensures Run(more).box == Drive(Run(steps).box, oracle, used).0
    ensures Run(more).log == Run(steps).log
  {
    AwaitingIsNotCalled(Run(steps).box, oracle, used);
    more := DeliverIsAdvances(steps, oracle, used);
  }
}

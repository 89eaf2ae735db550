/** At most one prompt for each receipt key over any number of crashes and restarts. */
module WiringRuns {
  import opened Prelude
  import opened ReceiptKeys
  import opened Delivery
  import opened ProofAdapter
  import opened Wiring
  import D = DeliveryRuns
  import DeliverySteps

  ghost predicate NoDup(log: seq<Key>) {
    forall i, j | 0 <= i < j < |log| :: log[i] != log[j]
  }

  /** The adapter's memory is exact: an id let through by this process is remembered as accepted exactly
      when its key was accepted in some life. */
  ghost predicate Remembered(keys: map<string, Key>, log: seq<Key>, box: Box) {
    && Known(box) <= keys.Keys
    && (forall id | id in keys :: keys[id] in log <==> id in Known(box))
  }

  /** What was accepted bears a marker. */
  ghost predicate Covered(log: seq<Key>, ledger: Ledger) {
    forall k | k in log :: IsPrompted(ledger, k)
  }

  ghost predicate AttemptsWritten(b: Box) {
    && (b.phase.Attempting? ==> forall i | 0 <= i < b.phase.n && i < |b.targets| :: b.targets[i] in b.ledger.attempts)
    && (b.phase.Calling? ==> forall k | k in b.targets :: k in b.ledger.attempts)
    && (b.phase.Attempting? || b.phase.Calling? || b.phase.Clearing? ==> Ids(b.batch) !! Known(b))
  }

  ghost predicate Fine(s: Wire) {
    Remembered(s.keys, s.log, s.box) && Covered(s.log, s.box.ledger) && NoDup(s.log) && AttemptsWritten(s.box)
  }

  // ---------------------------------------------------------------- steps outside the adapter

  lemma AdoptFine(s: Wire, sys: D.System)
    requires Fine(s)
    ensures Fine(Adopt(s, sys))
  {
  }

  lemma LetFine(s: Wire, e: Event, key: Key)
    requires Base(s) && Fine(s) && !IsPrompted(s.box.ledger, key) && (e.id in s.keys ==> s.keys[e.id] == key)
    ensures Fine(Let(s, e, key))
  {
    assert key !in s.log;
  }

  lemma MailCheckedFine(s: Wire, version: int, summary: Summary, created: real, taken: bool)
    requires Base(s) && Fine(s)
    ensures Fine(MailChecked(s, version, summary, created, taken))
  {
    if Deliverable(summary) && summary.messageId.value !in s.seen {
      var key := Key(summary.projectKey, summary.mailName, summary.messageId.value);
      NewMailId(s, summary.messageId.value);
      if !taken && !IsPrompted(s.box.ledger, key) {
        MailFine(s.(seen := s.seen + {summary.messageId.value}), MailEvent(version, summary, created), key);
      }
    }
  }

  lemma ControlCheckedFine(s: Wire, version: int, id: string, text: string, created: real)
    requires Base(s) && Fine(s)
    ensures Fine(ControlChecked(s, version, id, text, created))
  {
    if !(MAIL_PREFIX <= id) && !IsPrompted(s.box.ledger, ControlKey(id)) {
      LetFine(s, ControlEvent(version, id, text, created), ControlKey(id));
    }
  }

  lemma MailFine(s: Wire, e: Event, key: Key)
    requires Fine(s) && !IsPrompted(s.box.ledger, key) && e.id !in s.keys
    ensures Fine(Let(s, e, key))
  {
    assert key !in s.log;
  }

  // ---------------------------------------------------------------- micro-steps

  lemma {:induction false} IdsMember(events: seq<Event>, id: string)
    ensures id in Ids(events) <==> exists i :: 0 <= i < |events| && events[i].id == id
  {
    if events != [] {
      var front := events[..|events| - 1];
      IdsMember(front, id);
      if id in Ids(front) {
        var i :| 0 <= i < |front| && front[i].id == id;
        assert events[i].id == id;
      }
      if i :| 0 <= i < |events| && events[i].id == id {
        if i < |front| { assert front[i].id == id; }
      }
    }
  }

  lemma {:induction false} DistinctAt(events: seq<Event>, i: nat, j: nat)
    requires Distinct(events) && i < j < |events|
    ensures events[i].id != events[j].id
  {
    var front := events[..|events| - 1];
    if j < |front| {
      DistinctAt(front, i, j);
    } else {
      IdsMember(front, events[j].id);
      assert front[i].id == events[i].id;
    }
  }

  lemma {:induction false} AwaitingKeys(pendingMarks: map<string, seq<Key>>, events: seq<Event>, targets: seq<Key>)
    ensures Awaiting(pendingMarks, events, targets).Keys == pendingMarks.Keys + Ids(events)
  {
    if events != [] { AwaitingKeys(pendingMarks, events[..|events| - 1], targets); }
  }

  /** No micro-step but the wrapped call changes what is remembered. */
  lemma MicroKnown(b: Box, ok: bool)
    ensures Known(Micro(b, ok)) == if b.phase.Calling? && ok then Known(b) + Ids(b.batch) else Known(b)
  {
    if b.phase.Marking? && b.phase.n >= |b.targets| { AwaitingKeys(b.pendingMarks, b.batch, b.targets); }
  }

  /** The targets of a batch are the keys of its ids. */
  lemma TargetAt(s: Wire, i: nat)
    requires Base(s) && i < |s.box.batch| && Targets(s.box.batch) == Some(s.box.targets)
    ensures s.box.batch[i].id in s.keys && s.box.targets[i] == s.keys[s.box.batch[i].id]
  {
    assert s.box.batch[i] in s.box.batch;
  }

  lemma TargetsUnlogged(s: Wire)
    requires Base(s) && Fine(s) && Targets(s.box.batch) == Some(s.box.targets)
             && Ids(s.box.batch) !! Known(s.box)
    ensures forall k | k in s.box.targets :: k !in s.log
  {
    forall i | 0 <= i < |s.box.targets| ensures s.box.targets[i] !in s.log {
      TargetAt(s, i);
      IdsMember(s.box.batch, s.box.batch[i].id);
    }
  }

  lemma TargetsDistinct(s: Wire)
    requires Base(s) && s.sys.air != [] && Targets(s.box.batch) == Some(s.box.targets)
    ensures NoDup(s.box.targets)
  {
    forall i, j | 0 <= i < j < |s.box.targets| ensures s.box.targets[i] != s.box.targets[j] {
      TargetAt(s, i);
      TargetAt(s, j);
      DistinctAt(s.box.batch, i, j);
    }
  }

  lemma NoDupJoin(a: seq<Key>, b: seq<Key>)
    ensures NoDup(a + b) <==> NoDup(a) && NoDup(b) && forall k | k in b :: k !in a
  {
    var c := a + b;
    assert forall i | 0 <= i < |a| :: c[i] == a[i];
    assert forall i | |a| <= i < |c| :: c[i] == b[i - |a|] && c[i] in b;
    if NoDup(c) {
      forall i, j | 0 <= i < j < |b| ensures b[i] != b[j] { assert c[|a| + i] == b[i] && c[|a| + j] == b[j]; }
      forall k | k in b ensures k !in a {
        var j :| 0 <= j < |b| && b[j] == k;
        assert c[|a| + j] == k;
      }
    }
  }

  lemma AcceptRemembers(s: Wire)
    requires Base(s) && Fine(s) && s.box.phase.Calling?
    ensures Remembered(s.keys, s.log + s.box.targets, Micro(s.box, true))
  {
    MicroKnown(s.box, true);
    forall i | 0 <= i < |s.box.batch|
      ensures s.box.batch[i].id in s.keys && s.box.targets[i] == s.keys[s.box.batch[i].id]
    {
      TargetAt(s, i);
    }
    forall id ensures id in Ids(s.box.batch) <==> id in s.keys && s.keys[id] in s.box.targets {
      IdsMember(s.box.batch, id);
      if id in s.keys && s.keys[id] in s.box.targets {
        var i :| 0 <= i < |s.box.targets| && s.box.targets[i] == s.keys[id];
        assert KeyShape(id, s.keys[id]) && KeyShape(s.box.batch[i].id, s.keys[id]);
      }
    }
  }

  lemma AcceptFine(s: Wire)
    requires Base(s) && Fine(s) && s.box.phase.Calling?
    ensures Fine(Moved(s, true))
  {
    AcceptRemembers(s);
    TargetsUnlogged(s);
    TargetsDistinct(s);
    NoDupJoin(s.log, s.box.targets);
  }

  ghost predicate Grows(a: Ledger, b: Ledger) {
    a.attempts <= b.attempts && a.delivered <= b.delivered
  }

  lemma QuietFine(s: Wire, t: Wire)
    requires Fine(s) && t.keys == s.keys && t.log == s.log
    requires Known(t.box) == Known(s.box) && Grows(s.box.ledger, t.box.ledger) && AttemptsWritten(t.box)
    ensures Fine(t)
  {
  }

  lemma AttemptMicro(b: Box, ok: bool)
    requires AttemptsWritten(b) && (b.phase.Entered? || b.phase.Attempting?) && !Mixed(b)
    ensures Grows(b.ledger, Micro(b, ok).ledger) && AttemptsWritten(Micro(b, ok))
  {
  }

  lemma OtherMicro(b: Box, ok: bool)
    requires b.phase.Idle? || b.phase.Recovering? || b.phase.Marking? || (b.phase.Calling? && !ok && AttemptsWritten(b))
    ensures Grows(b.ledger, Micro(b, ok).ledger) && AttemptsWritten(Micro(b, ok))
  {
  }

  lemma AttemptingFine(s: Wire, ok: bool)
    requires Base(s) && Fine(s) && (s.box.phase.Entered? || s.box.phase.Attempting?) && !Moved(s, ok).disturbed
    ensures Fine(Moved(s, ok))
  {
    MicroKnown(s.box, ok);
    AttemptMicro(s.box, ok);
    QuietFine(s, Moved(s, ok));
  }

  lemma ClearMicro(b: Box, ok: bool, log: seq<Key>)
    requires b.phase.Clearing? && Covered(log, b.ledger) && AttemptsWritten(b) && forall k | k in b.targets :: k !in log
    ensures Covered(log, Micro(b, ok).ledger) && AttemptsWritten(Micro(b, ok))
  {
    forall k | k in log ensures IsPrompted(Micro(b, ok).ledger, k) {
      if b.phase.n < |b.targets| { assert b.targets[b.phase.n] in b.targets; }
    }
  }

  lemma ClearingFine(s: Wire, ok: bool)
    requires Base(s) && Fine(s) && s.box.phase.Clearing?
    ensures Fine(Moved(s, ok))
  {
    MicroKnown(s.box, ok);
    TargetsUnlogged(s);
    ClearMicro(s.box, ok, s.log);
  }

  lemma AfterwardsFine(s: Wire, ok: bool)
    requires Base(s) && Fine(s)
    requires s.box.phase.Idle? || s.box.phase.Recovering? || s.box.phase.Marking? || (s.box.phase.Calling? && !ok)
    ensures Fine(Moved(s, ok))
  {
    MicroKnown(s.box, ok);
    OtherMicro(s.box, ok);
    QuietFine(s, Moved(s, ok));
  }

  lemma FinishedFine(s: Wire)
    requires Fine(s) && s.box.phase.Returned?
    ensures Fine(Finished(s))
  {
  }

  lemma MovedFine(s: Wire, ok: bool)
    requires Base(s) && Fine(s) && !s.box.phase.Returned? && !Moved(s, ok).disturbed
    ensures Fine(Moved(s, ok))
  {
    if s.box.phase.Entered? || s.box.phase.Attempting? {
      AttemptingFine(s, ok);
    } else if s.box.phase.Calling? && ok {
      AcceptFine(s);
    } else if s.box.phase.Clearing? {
      ClearingFine(s, ok);
    } else {
      AfterwardsFine(s, ok);
    }
  }

  lemma AdvancedFine(s: Wire, ok: bool)
    requires Base(s) && Fine(s) && !Advanced(s, ok).disturbed
    ensures Fine(Advanced(s, ok))
  {
    if s.box.phase.Returned? { FinishedFine(s); } else { MovedFine(s, ok); }
  }

  /** A pause of a receipt without a marker changes nothing. */
  lemma PausedFine(s: Wire, key: Key)
    requires Fine(s) && !Paused(s, key).disturbed
    ensures Fine(Paused(s, key)) && Paused(s, key).box == s.box
  {
    assert s.box.ledger.attempts - {key} == s.box.ledger.attempts;
    assert s.box.ledger.delivered - {key} == s.box.ledger.delivered;
  }

  lemma ThroughFine(s: Wire, step: Step)
    requires Fine(s) && CoreStep(step).Some?
    ensures Fine(Through(s, step, CoreStep(step).value))
  {
    AdoptFine(s, D.Next(s.sys, CoreStep(step).value));
  }

  lemma NextFine(s: Wire, step: Step)
    requires Base(s) && Fine(s) && !Next(s, step).disturbed
    ensures Fine(Next(s, step))
  {
    if CoreStep(step).Some? {
      ThroughFine(s, step);
    } else {
      match step
      case CheckMail(version, summary, created, taken) => MailCheckedFine(s, version, summary, created, taken);
      case CheckControl(version, id, text, created) => ControlCheckedFine(s, version, id, text, created);
      case Advance(ok) => AdvancedFine(s, ok);
      case Pause(key) => PausedFine(s, key);
      case _ =>
    }
  }

  lemma DisturbedStays(s: Wire, step: Step)
    ensures s.disturbed ==> Next(s, step).disturbed
    ensures s.failed ==> Next(s, step).failed
  {
  }

  lemma LogGrows(s: Wire, step: Step)
    ensures s.log <= Next(s, step).log
  {
  }

  lemma {:induction false} Reachable(steps: seq<Step>)
    ensures Base(Run(steps))
    ensures !Run(steps).disturbed ==> Fine(Run(steps))
  {
    if steps == [] {
      D.InitialInv();
    } else {
      var front := steps[..|steps| - 1];
      Reachable(front);
      NextBase(Run(front), steps[|steps| - 1]);
      DisturbedStays(Run(front), steps[|steps| - 1]);
      if !Run(steps).disturbed { NextFine(Run(front), steps[|steps| - 1]); }
    }
  }

  // ---------------------------------------------------------------- promises

  /** Unless a call repeats an accepted event or a pause erases its marker, no receipt key is prompted
      twice, however often the process crashes, and an accepted key bears a marker. */
  lemma AtMostOnce(steps: seq<Step>)
    requires !Run(steps).disturbed
    ensures var s := Run(steps); NoDup(s.log) && Covered(s.log, s.box.ledger)
  {
    Reachable(steps);
  }

  /** Once accepted, a message or control event is not let through again in any life. */
  lemma AcceptedStaysOut(steps: seq<Step>, check: Step)
    requires !Run(steps).disturbed && (check.CheckMail? || check.CheckControl?)
    ensures var s := Run(steps);
            forall e | e in Next(s, check).checked - s.checked :: Target(e).Some? && Target(e).value !in s.log
  {
    Reachable(steps);
    CheckKeepsOut(Run(steps), check);
  }

  lemma CheckKeepsOut(s: Wire, check: Step)
    requires Covered(s.log, s.box.ledger) && (check.CheckMail? || check.CheckControl?)
    ensures forall e | e in Next(s, check).checked - s.checked :: Target(e).Some? && Target(e).value !in s.log
  {
    if check.CheckMail? && Deliverable(check.summary) {
      assert MAIL_PREFIX <= MailEvent(check.version, check.summary, check.created).id;
    }
  }

  /** A call that is about to be made repeats a key, if accepted, exactly when its batch holds an event
      that awaits its mark or is proven already: recovery needs the whole batch to await marks. */
  lemma CallRepeatsExactly(steps: seq<Step>)
    requires var s := Run(steps);
             && !s.disturbed && s.box.phase.Entered? && Targets(s.box.batch).Some?
             && !AllAwaitMarks(s.box.pendingMarks, s.box.batch)
    ensures var s := Run(steps);
            NoDup(s.log + Targets(s.box.batch).value) <==>
            forall e | e in s.box.batch :: e.id !in s.box.pendingMarks && e.id !in s.box.proof
  {
    Reachable(steps);
    RepeatsExactly(Run(steps), Targets(Run(steps).box.batch).value);
  }

  lemma RepeatsExactly(s: Wire, targets: seq<Key>)
    requires Base(s) && Fine(s) && s.box.phase.Entered? && Targets(s.box.batch) == Some(targets)
    ensures NoDup(s.log + targets) <==>
            forall e | e in s.box.batch :: e.id !in s.box.pendingMarks && e.id !in s.box.proof
  {
    TargetsDistinct(s.(box := s.box.(targets := targets)));
    NoDupJoin(s.log, targets);
    forall i | 0 <= i < |targets|
      ensures targets[i] in s.log <==> s.box.batch[i].id in s.box.pendingMarks.Keys + s.box.proof
    {
      TargetAt(s.(box := s.box.(targets := targets)), i);
    }
    if forall k | k in targets :: k !in s.log {
      forall e | e in s.box.batch ensures e.id !in s.box.pendingMarks && e.id !in s.box.proof {
        var i :| 0 <= i < |s.box.batch| && s.box.batch[i] == e;
        assert targets[i] in targets;
      }
    } else {
      var k :| k in targets && k in s.log;
      var i :| 0 <= i < |targets| && targets[i] == k;
      assert s.box.batch[i] in s.box.batch;
    }
  }

  /** `request_pause` replaces the whole checkpoint of a receipt, and with it the markers.  That makes a
      difference exactly when the receipt bears a marker, which whoever pauses can read: only then a
      restart would refuse the message without the pause, and lets it through after it. */
  lemma PauseMattersExactly(steps: seq<Step>, version: int, summary: Summary, created: real)
    requires Deliverable(summary)
    ensures var s, key := Run(steps), Key(summary.projectKey, summary.mailName, summary.messageId.value);
            var check, e := CheckMail(version, summary, created, false), MailEvent(version, summary, created);
            var with := Next(Next(Next(s, Pause(key)), Crash), check);
            var without := Next(Next(s, Crash), check);
            && (IsPrompted(s.box.ledger, key) <==> e !in without.checked)
            && e in with.checked && with.log == s.log
  {
    var s, key := Run(steps), Key(summary.projectKey, summary.mailName, summary.messageId.value);
    CheckAfterCrash(s, version, summary, created, key);
    CheckAfterCrash(Next(s, Pause(key)), version, summary, created, key);
    PauseErases(s, key);
  }

  lemma PauseErases(s: Wire, key: Key)
    ensures !IsPrompted(Next(s, Pause(key)).box.ledger, key) && Next(s, Pause(key)).log == s.log
  {
  }

  lemma CheckAfterCrash(s: Wire, version: int, summary: Summary, created: real, key: Key)
    requires Deliverable(summary) && key == Key(summary.projectKey, summary.mailName, summary.messageId.value)
    ensures var t := Next(Next(s, Crash), CheckMail(version, summary, created, false));
            t.log == s.log && (MailEvent(version, summary, created) in t.checked <==> !IsPrompted(s.box.ledger, key))
  {
  }

  // ---------------------------------------------------------------- what a check lets through

  /** A message is let through exactly if it has a positive id, names a mailbox, was not looked at before in this
      life, is neither claimed nor processed, and its receipt bears no marker. */
  lemma MailCheckExactly(s: Wire, version: int, summary: Summary, created: real, taken: bool)
    ensures var t := Next(s, CheckMail(version, summary, created, taken));
            && t.box == s.box && t.sys == s.sys && t.log == s.log
            && if summary.messageId.None? || summary.messageId.value <= 0 || summary.projectKey == ""
                  || summary.mailName == "" || summary.projectKey == "/b0/control" then t == s
               else
                 var id := summary.messageId.value;
                 var key := Key(summary.projectKey, summary.mailName, id);
                 && t.seen == s.seen + {id}
                 && t.checked == s.checked +
                      if id !in s.seen && !taken && key !in s.box.ledger.attempts && key !in s.box.ledger.delivered
                      then multiset{Event("mail:" + Digits(id), version, summary, created)} else multiset{}
  {
    if summary.messageId.Some? && summary.messageId.value in s.seen {
      assert s.seen + {summary.messageId.value} == s.seen;
    }
  }

  /** A control event is let through exactly if its receipt bears no marker. */
  lemma ControlCheckExactly(s: Wire, version: int, id: string, text: string, created: real)
    requires !("mail:" <= id)
    ensures var t, key := Next(s, CheckControl(version, id, text, created)), Key("/b0/control", id, 0);
            && t.box == s.box && t.sys == s.sys && t.log == s.log && t.seen == s.seen
            && t.checked == s.checked +
                 if key !in s.box.ledger.attempts && key !in s.box.ledger.delivered
                 then multiset{Event(id, version, Summary("", "", None, text), created)} else multiset{}
  {
  }

  // ---------------------------------------------------------------- what the adapter remembers, always

  /** Whatever happens, an event the adapter counts as accepted was accepted. */
  ghost predicate KnownLogged(s: Wire) {
    forall id | id in Known(s.box) :: id in s.keys && s.keys[id] in s.log
  }

  lemma AcceptLogged(s: Wire)
    requires Base(s) && KnownLogged(s) && s.box.phase.Calling?
    ensures KnownLogged(Moved(s, true))
  {
    MicroKnown(s.box, true);
    forall id | id in Ids(s.box.batch) ensures id in s.keys && s.keys[id] in s.box.targets {
      IdsMember(s.box.batch, id);
      var i :| 0 <= i < |s.box.batch| && s.box.batch[i].id == id;
      TargetAt(s, i);
    }
  }

  lemma MovedLogged(s: Wire, ok: bool)
    requires Base(s) && KnownLogged(s) && !s.box.phase.Returned?
    ensures KnownLogged(Moved(s, ok))
  {
    if s.box.phase.Calling? && ok { AcceptLogged(s); } else { MicroKnown(s.box, ok); }
  }

  lemma MailCheckedLogged(s: Wire, version: int, summary: Summary, created: real, taken: bool)
    requires Base(s) && KnownLogged(s)
    ensures KnownLogged(MailChecked(s, version, summary, created, taken))
  {
    if Deliverable(summary) && summary.messageId.value !in s.seen { NewMailId(s, summary.messageId.value); }
  }

  lemma ControlCheckedLogged(s: Wire, version: int, id: string, text: string, created: real)
    requires Base(s) && KnownLogged(s)
    ensures KnownLogged(ControlChecked(s, version, id, text, created))
  {
    if id in s.keys && !(MAIL_PREFIX <= id) { ControlKeyShape(id, s.keys[id]); }
  }

  lemma ControlKeyShape(id: string, key: Key)
    requires KeyShape(id, key) && !(MAIL_PREFIX <= id)
    ensures key == ControlKey(id)
  {
    assert forall n: nat :: MAIL_PREFIX <= MailId(n);
  }

  lemma NextLogged(s: Wire, step: Step)
    requires Base(s) && KnownLogged(s)
    ensures KnownLogged(Next(s, step))
  {
    if CoreStep(step).None? {
      match step
      case Advance(ok) => if !s.box.phase.Returned? { MovedLogged(s, ok); }
      case CheckMail(version, summary, created, taken) => MailCheckedLogged(s, version, summary, created, taken);
      case CheckControl(version, id, text, created) => ControlCheckedLogged(s, version, id, text, created);
      case _ =>
    }
  }

  lemma {:induction false} ProofIsAccepted(steps: seq<Step>)
    ensures KnownLogged(Run(steps))
  {
    if steps != [] {
      Reachable(steps[..|steps| - 1]);
      ProofIsAccepted(steps[..|steps| - 1]);
      NextLogged(Run(steps[..|steps| - 1]), steps[|steps| - 1]);
    }
  }

  // ---------------------------------------------------------------- the method and the steps

  lemma RunAppend(steps: seq<Step>, step: Step)
    ensures Run(steps + [step]) == Next(Run(steps), step)
  {
    assert (steps + [step])[..|steps|] == steps;
  }

  lemma AdvanceBox(steps: seq<Step>, ok: bool)
    requires !Run(steps).box.phase.Returned?
    ensures var s, t := Run(steps), Run(steps + [Advance(ok)]);
            && t.box == Micro(s.box, ok) && t.sys == s.sys
            && t.log == s.log + if s.box.phase.Calling? && ok then s.box.targets else []
  {
    RunAppend(steps, Advance(ok));
    AdvanceIs(Run(steps), ok);
  }

  lemma AdvanceIs(s: Wire, ok: bool)
    requires !s.box.phase.Returned?
    ensures var t := Next(s, Advance(ok));
            && t.box == Micro(s.box, ok) && t.sys == s.sys
            && t.log == s.log + if s.box.phase.Calling? && ok then s.box.targets else []
  {
    assert s.log + [] == s.log;
  }

  lemma MicroShrinks(b: Box, ok: bool)
    requires !b.phase.Idle? && !b.phase.Returned?
    ensures var c := Micro(b, ok);
            Rank(c.phase) < Rank(b.phase) || (Rank(c.phase) == Rank(b.phase) && (Remaining(c).0 < Remaining(b).0 ||
              (Remaining(c).0 == Remaining(b).0 && Remaining(c).1 < Remaining(b).1)))
  {
  }

  /** The next micro-step and what is left of the delivery. */
  lemma DriveNext(b: Box, oracle: nat -> bool, used: nat) returns (u: nat)
    requires !b.phase.Idle? && !b.phase.Returned?
    ensures var c := Micro(b, oracle(used));
            && Drive(b, oracle, used) == Drive(c, oracle, u)
            && Prompts(b, oracle, used) ==
                 (if b.phase.Calling? && oracle(used) then b.targets else []) + Prompts(c, oracle, u)
  {
    u := if Acts(b) then used + 1 else used;
  }

  /** Only steps of the delivery under way. */
  ghost predicate Advances(steps: seq<Step>, more: seq<Step>) {
    steps <= more && forall i | |steps| <= i < |more| :: more[i].Advance?
  }

  lemma AdvanceNext(steps: seq<Step>, ok: bool) returns (next: seq<Step>)
    requires !Run(steps).box.phase.Returned?
    ensures Advances(steps, next)
    ensures var s, t := Run(steps), Run(next);
            && t.box == Micro(s.box, ok) && t.sys == s.sys
            && t.log == s.log + if s.box.phase.Calling? && ok then s.box.targets else []
  {
    next := steps + [Advance(ok)];
    AdvanceBox(steps, ok);
  }

  lemma JoinLogs(a: seq<Key>, b: seq<Key>, c: seq<Key>)
    ensures (a + b) + c == a + (b + c)
  {
  }

  /** What `Adapter.Deliver` does in one go is a row of steps of this system, so a crash between any two
      of its writes is among the runs above. */
  lemma {:induction false} DeliverIsAdvances(steps: seq<Step>, oracle: nat -> bool, used: nat)
    returns (more: seq<Step>)
    ensures Advances(steps, more)
    ensures Run(more).box == Drive(Run(steps).box, oracle, used).0 && Run(more).sys == Run(steps).sys
    ensures Run(more).log == Run(steps).log + Prompts(Run(steps).box, oracle, used)
    decreases Rank(Run(steps).box.phase), Remaining(Run(steps).box).0, Remaining(Run(steps).box).1
  {
    var s := Run(steps);
    if s.box.phase.Idle? || s.box.phase.Returned? {
      more := steps;
      assert s.log + [] == s.log;
    } else {
      var next := AdvanceNext(steps, oracle(used));
      var u := DriveNext(s.box, oracle, used);
      MicroShrinks(s.box, oracle(used));
      more := DeliverIsAdvances(next, oracle, u);
      JoinLogs(s.log, if s.box.phase.Calling? && oracle(used) then s.box.targets else [],
               Prompts(Run(next).box, oracle, u));
    }
  }
}

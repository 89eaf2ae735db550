/**
 One scope of the coordinator over any number of process lives and binding versions: durable prompt
 markers, a volatile delivery core and adapter memory, and crashes between any two steps.

 Any version may be announced at any time: two threads that sync may have read different rows.  Any
 number of threads may hold events on their way to an ingest (`checked`): let through by the marker
 check, or handed over by a switch.  `log` and `keys` are histories that nothing in the code depends on.
 */
module Wiring {
  import opened Prelude
  import opened ReceiptKeys
  import opened Delivery
  import opened ProofAdapter
  import D = DeliveryRuns
  import DeliverySteps

  datatype Wire = Wire(
    sys: D.System,
    seen: set<int>,
    checked: multiset<Event>,
    box: Box,
    /** The receipt key of each event id this process has let through. */
    keys: map<string, Key>,
    /** The keys of all events the wrapped adapter accepted, over all lives. */
    log: seq<Key>,
    /** A write of a delivered mark has failed. */
    failed: bool,
    /** The wrapped adapter was called with an event it had accepted before, or a pause request has
        hit a receipt that bore a marker. */
    disturbed: bool)

  const INITIAL :=
    Wire(D.INITIAL, {}, multiset{}, Box(Ledger({}, {}), map[], {}, [], [], Idle), map[], [], false, false)

  datatype Step =
    | Announce(version: int)
    | Status(status: string)
    | Flush
    | CheckMail(version: int, summary: Summary, created: real, taken: bool)
    | CheckControl(version: int, eventId: string, text: string, created: real)
    | Enter(event: Event)
    | Advance(ok: bool)
    | Pause(key: Key)
    | Crash

  /** After a step of the core: a call it launched enters the proof adapter. */
  ghost function Adopt(s: Wire, sys: D.System): Wire {
    if s.box.phase.Idle? && sys.air != []
    then s.(sys := sys, box := s.box.(batch := sys.air[0].flight.events, targets := [], phase := Entered))
    else s.(sys := sys)
  }

  /** The events whose acceptance the adapter remembers. */
  ghost function Known(box: Box): set<string> {
    box.pendingMarks.Keys + box.proof + if box.phase.Marking? then Ids(box.batch) else {}
  }

  /** A call is about to be made although the batch holds an event accepted before. */
  ghost predicate Mixed(box: Box) {
    && box.phase.Entered? && Targets(box.batch).Some? && !AllAwaitMarks(box.pendingMarks, box.batch)
    && Ids(box.batch) * Known(box) != {}
  }

  ghost function Moved(s: Wire, ok: bool): Wire {
    s.(box := Micro(s.box, ok),
       log := if s.box.phase.Calling? && ok then s.log + s.box.targets else s.log,
       failed := s.failed || (!ok && Acts(s.box) && (s.box.phase.Marking? || s.box.phase.Recovering?)),
       disturbed := s.disturbed || Mixed(s.box))
  }

  ghost function Finished(s: Wire): Wire
    requires s.box.phase.Returned?
  {
    s.(sys := DeliverySteps.Closed(s.sys, s.box.phase.accepted),
       box := s.box.(batch := [], targets := [], phase := Idle))
  }

  function MailEvent(version: int, summary: Summary, created: real): Event
    requires summary.messageId.Some? && summary.messageId.value >= 0
  {
    Event(MailId(summary.messageId.value), version, summary, created)
  }

  /** What the ingest of a message needs: an id (0 counts as none) and an identity that names a mailbox. */
  predicate Deliverable(summary: Summary) {
    && summary.messageId.Some? && summary.messageId.value > 0
    && summary.projectKey != "" && summary.mailName != "" && summary.projectKey != CONTROL_PROJECT
  }

  function ControlEvent(version: int, id: string, text: string, created: real): Event {
    Event(id, version, Summary("", "", None, text), created)
  }

  ghost function Let(s: Wire, e: Event, key: Key): Wire {
    s.(checked := s.checked + multiset{e}, keys := s.keys[e.id := key])
  }

  /** The steps that pass straight through to the delivery core. */
  function CoreStep(step: Step): Option<D.Step> {
    match step
    case Status(status) => Some(D.DoStatus(status))
    case Flush => Some(D.DoFlush)
    case Enter(e) => Some(D.DoIngest(e))
    case _ => None
  }

  ghost function Through(s: Wire, step: Step, core: D.Step): Wire {
    if !step.Enter? then Adopt(s, D.Next(s.sys, core))
    else if step.event in s.checked then Adopt(s.(checked := s.checked - multiset{step.event}), D.Next(s.sys, core))
    else s
  }

  /** A switch leaves its cleared events with the thread, to be ingested under the new version. */
  ghost function Announced(s: Wire, version: int): Wire {
    s.(sys := D.Next(s.sys, D.DoBind(version)),
       checked := s.checked + multiset(Relabelled(Bind(s.sys.core, version).1, version)))
  }

  /** `taken` says that the receipt is claimed or processed. */
  ghost function MailChecked(s: Wire, version: int, summary: Summary, created: real, taken: bool): Wire {
    if !Deliverable(summary) || summary.messageId.value in s.seen then s
    else
      var key := Key(summary.projectKey, summary.mailName, summary.messageId.value);
      var t := s.(seen := s.seen + {summary.messageId.value});
      if taken || IsPrompted(s.box.ledger, key) then t else Let(t, MailEvent(version, summary, created), key)
  }

  ghost function ControlChecked(s: Wire, version: int, id: string, text: string, created: real): Wire {
    var key := ControlKey(id);
    if MAIL_PREFIX <= id || IsPrompted(s.box.ledger, key) then s
    else Let(s, ControlEvent(version, id, text, created), key)
  }

  ghost function Paused(s: Wire, key: Key): Wire {
    s.(box := s.box.(ledger := Ledger(s.box.ledger.attempts - {key}, s.box.ledger.delivered - {key})),
       disturbed := s.disturbed || IsPrompted(s.box.ledger, key))
  }

  ghost function Crashed(s: Wire): Wire {
    Wire(D.INITIAL, {}, multiset{}, Box(s.box.ledger, map[], {}, [], [], Idle), map[], s.log, s.failed, s.disturbed)
  }

  ghost function Advanced(s: Wire, ok: bool): Wire {
    if s.box.phase.Returned? then Finished(s) else Moved(s, ok)
  }

  /** A step that is not enabled leaves the system alone. */
  ghost function Next(s: Wire, step: Step): Wire {
    var core := CoreStep(step);
    if core.Some? then Through(s, step, core.value)
    else
      match step
      case Announce(version) => Announced(s, version)
      case CheckMail(version, summary, created, taken) => MailChecked(s, version, summary, created, taken)
      case CheckControl(version, id, text, created) => ControlChecked(s, version, id, text, created)
      case Advance(ok) => Advanced(s, ok)
      case Pause(key) => Paused(s, key)
      case _ => Crashed(s)
  }

  ghost function Run(steps: seq<Step>): Wire {
    if steps == [] then INITIAL else Next(Run(steps[..|steps| - 1]), steps[|steps| - 1])
  }

  // ---------------------------------------------------------------- structure

  /** The call in the core and the delivery in the adapter are one. */
  ghost predicate Joined(s: Wire) {
    && (s.box.phase.Idle? <==> s.sys.air == [])
    && (if s.sys.air != [] then s.box.batch == s.sys.air[0].flight.events else s.box.batch == [] && s.box.targets == [])
    && TargetsOk(s.box)
  }

  ghost predicate TargetsOk(b: Box) {
    b.phase.Attempting? || b.phase.Calling? || b.phase.Clearing? || b.phase.Marking? ==>
      Targets(b.batch) == Some(b.targets)
  }

  lemma MicroShape(b: Box, ok: bool)
    requires TargetsOk(b)
    ensures var c := Micro(b, ok);
            TargetsOk(c) && c.batch == b.batch && (c.phase.Idle? <==> b.phase.Idle?) && (b.phase.Idle? ==> c == b)
  {
  }

  predicate KeyedAs(keys: map<string, Key>, e: Event) {
    e.id in keys && Target(e) == Some(keys[e.id])
  }

  /** Every event at hand has the key its id was let through with. */
  ghost predicate Keyed(s: Wire) {
    && (forall e | e in s.sys.core.pending :: KeyedAs(s.keys, e))
    && (forall e | e in s.box.batch :: KeyedAs(s.keys, e))
    && (forall e | e in s.checked :: KeyedAs(s.keys, e))
  }

  /** A key determines its event id. */
  predicate KeyShape(id: string, key: Key) {
    if key.project == CONTROL_PROJECT then key == ControlKey(id) && !(MAIL_PREFIX <= id)
    else key.id >= 0 && id == MailId(key.id)
  }

  ghost predicate KeysOk(s: Wire) {
    forall id | id in s.keys ::
      KeyShape(id, s.keys[id]) && (s.keys[id].project == CONTROL_PROJECT || s.keys[id].id in s.seen)
  }

  ghost predicate Base(s: Wire) {
    DeliverySteps.Ready(s.sys) && Joined(s) && Keyed(s) && KeysOk(s)
  }

  lemma AdoptBase(s: Wire, sys: D.System, extra: set<Event>)
    requires Base(s) && DeliverySteps.Ready(sys) && DeliverySteps.Advanced(s.sys, sys, extra)
    requires forall e | e in extra :: KeyedAs(s.keys, e)
    ensures Base(Adopt(s, sys))
  {
  }

  lemma LetBase(s: Wire, e: Event, key: Key)
    requires Base(s) && Target(e) == Some(key) && KeyShape(e.id, key)
    requires key.project == CONTROL_PROJECT || key.id in s.seen
    requires e.id in s.keys ==> s.keys[e.id] == key
    ensures Base(Let(s, e, key))
  {
  }

  lemma NewMailId(s: Wire, id: nat)
    requires KeysOk(s) && id !in s.seen
    ensures MailId(id) !in s.keys
  {
    if MailId(id) in s.keys {
      var key := s.keys[MailId(id)];
      assert MAIL_PREFIX <= MailId(id);
      if key.project != CONTROL_PROJECT { MailIdsDiffer(key.id, id); }
    }
  }

  lemma MailCheckedBase(s: Wire, version: int, summary: Summary, created: real, taken: bool)
    requires Base(s)
    ensures Base(MailChecked(s, version, summary, created, taken))
  {
    if Deliverable(summary) && summary.messageId.value !in s.seen {
      var e := MailEvent(version, summary, created);
      NewMailId(s, summary.messageId.value);
      assert MAIL_PREFIX <= e.id;
      LetBase(s.(seen := s.seen + {summary.messageId.value}), e, Target(e).value);
    }
  }

  lemma ControlCheckedBase(s: Wire, version: int, id: string, text: string, created: real)
    requires Base(s)
    ensures Base(ControlChecked(s, version, id, text, created))
  {
    if !(MAIL_PREFIX <= id) {
      LetBase(s, ControlEvent(version, id, text, created), ControlKey(id));
    }
  }

  lemma ThroughBase(s: Wire, step: Step)
    requires Base(s) && CoreStep(step).Some?
    ensures Base(Through(s, step, CoreStep(step).value))
  {
    var core := CoreStep(step).value;
    DeliverySteps.CoreStep(s.sys, core);
    if !step.Enter? {
      AdoptBase(s, D.Next(s.sys, core), {});
    } else if step.event in s.checked {
      AdoptBase(s.(checked := s.checked - multiset{step.event}), D.Next(s.sys, core),
                DeliverySteps.Admitted(s.sys.core, step.event));
    }
  }

  /** A key does not depend on the version. */
  lemma RelabelledKeyed(keys: map<string, Key>, events: seq<Event>, version: int)
    requires forall e | e in events :: KeyedAs(keys, e)
    ensures forall e | e in Relabelled(events, version) :: KeyedAs(keys, e)
  {
    RelabelledMembers(events, version);
    forall x | x in Relabelled(events, version) ensures KeyedAs(keys, x) {
      var e :| e in events && x == e.(version := version);
      assert Target(e) == Target(x);
    }
  }

  lemma AnnouncedBase(s: Wire, version: int)
    requires Base(s)
    ensures Base(Announced(s, version))
  {
    DeliverySteps.BindStep(s.sys, version);
    RelabelledKeyed(s.keys, Bind(s.sys.core, version).1, version);
  }

  lemma AdvancedBase(s: Wire, ok: bool)
    requires Base(s)
    ensures Base(Advanced(s, ok))
  {
    if s.box.phase.Returned? {
      DeliverySteps.CloseStep(s.sys, s.box.phase.accepted);
      FinishedBase(s);
    } else {
      MicroShape(s.box, ok);
      MovedBase(s, Moved(s, ok));
    }
  }

  lemma CrashedBase(s: Wire)
    ensures Base(Crashed(s))
  {
    D.InitialInv();
  }

  lemma FinishedBase(s: Wire)
    requires Base(s) && s.box.phase.Returned?
    requires var t := DeliverySteps.Closed(s.sys, s.box.phase.accepted);
             && DeliverySteps.Ready(t) && t.air == []
             && (forall x | x in t.core.pending ::
                   x in s.sys.core.pending || exists e :: e in s.box.batch && x == e.(version := x.version))
    ensures Base(Finished(s))
  {
  }

  lemma MovedBase(s: Wire, t: Wire)
    requires Base(s) && TargetsOk(t.box) && t.box.batch == s.box.batch
    requires (t.box.phase.Idle? <==> s.box.phase.Idle?) && (s.box.phase.Idle? ==> t.box == s.box)
    requires t.sys == s.sys && t.seen == s.seen && t.checked == s.checked && t.keys == s.keys
    ensures Base(t)
  {
  }

  lemma NextBase(s: Wire, step: Step)
    requires Base(s)
    ensures Base(Next(s, step))
  {
    if CoreStep(step).Some? {
      ThroughBase(s, step);
    } else {
      match step
      case Announce(version) => AnnouncedBase(s, version);
      case CheckMail(version, summary, created, taken) => MailCheckedBase(s, version, summary, created, taken);
      case CheckControl(version, id, text, created) => ControlCheckedBase(s, version, id, text, created);
      case Advance(ok) => AdvancedBase(s, ok);
      case Crash => CrashedBase(s);
      case _ =>
    }
  }
}

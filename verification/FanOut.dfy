/**
 The fan-out of control events: prompt evidence first, then the Hub transport, then the mark in the
 outbox, over any number of crashes and beside all other steps of the wiring.
 */
module FanOut {
  import opened Prelude
  import opened ReceiptKeys
  import opened Delivery
  import opened ProofAdapter
  import opened Wiring
  import opened WiringRuns
  import DeliverySteps

  /** How far this process has come with an event. */
  datatype Stage = Proven | Sent | Ready

  datatype Fan = Fan(
    wire: Wire,
    /** Durable: marked in the outbox, and transport marks on the receipts. */
    fanned: set<string>,
    noted: set<string>,
    /** Volatile. */
    stage: map<string, Stage>,
    /** Histories: successful transports, and markers the fan-out took as evidence. */
    transports: seq<string>,
    read: set<string>)

  const START := Fan(Wiring.INITIAL, {}, {}, map[], [], {})

  datatype FanStep =
    | OnWire(step: Wiring.Step)
    | ReadMarker(id: string)
    | SeeProof(id: string)
    | Transport(id: string, ok: bool)
    | Note(id: string, ok: bool)
    | MarkFanned(id: string, ok: bool)

  predicate AtStage(f: Fan, id: string, stage: Stage) {
    id in f.stage && f.stage[id] == stage
  }

  /** `given` says that the fan-out is called with a transport.  Ids of control events are no mail ids. */
  ghost function FanNext(given: bool, f: Fan, step: FanStep): Fan {
    match step
    case OnWire(wire) =>
      f.(wire := Wiring.Next(f.wire, wire), stage := if wire.Crash? then map[] else f.stage)
    case ReadMarker(id) =>
      if !(MAIL_PREFIX <= id) && id !in f.fanned && IsPrompted(f.wire.box.ledger, ControlKey(id))
      then f.(stage := f.stage[id := Proven], read := f.read + {id}) else f
    case SeeProof(id) =>
      if !(MAIL_PREFIX <= id) && id !in f.fanned && id in f.wire.box.proof
      then f.(stage := f.stage[id := Proven]) else f
    case Transport(id, ok) =>
      if !AtStage(f, id, Proven) then f
      else if !given || id in f.noted then f.(stage := f.stage[id := Ready])
      else if ok then f.(stage := f.stage[id := Sent], transports := f.transports + [id])
      else f.(stage := f.stage - {id})
    case Note(id, ok) =>
      if !AtStage(f, id, Sent) then f
      else f.(stage := f.stage[id := Ready], noted := if ok then f.noted + {id} else f.noted)
    case MarkFanned(id, ok) =>
      if !AtStage(f, id, Ready) then f
      else f.(stage := f.stage - {id}, fanned := if ok then f.fanned + {id} else f.fanned)
  }

  ghost function FanRun(given: bool, steps: seq<FanStep>): Fan {
    if steps == [] then START
    else FanNext(given, FanRun(given, steps[..|steps| - 1]), steps[|steps| - 1])
  }

  /** The steps of the wiring in such a run. */
  function WireSteps(steps: seq<FanStep>): seq<Wiring.Step> {
    if steps == [] then []
    else
      var front, last := WireSteps(steps[..|steps| - 1]), steps[|steps| - 1];
      if last.OnWire? then front + [last.step] else front
  }

  lemma {:induction false} WireIsRun(given: bool, steps: seq<FanStep>)
    ensures FanRun(given, steps).wire == Wiring.Run(WireSteps(steps))
  {
    if steps != [] {
      WireIsRun(given, steps[..|steps| - 1]);
      var front := WireSteps(steps[..|steps| - 1]);
      if steps[|steps| - 1].OnWire? { RunAppend(front, steps[|steps| - 1].step); }
    }
  }

  // ---------------------------------------------------------------- order

  /** Prompted for certain, or its marker was there when the fan-out looked. */
  ghost predicate Evident(f: Fan, id: string) {
    ControlKey(id) in f.wire.log || id in f.read
  }

  ghost predicate Ordered(given: bool, f: Fan) {
    && (forall id | id in f.stage ::
          Evident(f, id) && (f.stage[id] == Sent || (given && f.stage[id] == Ready) ==> id in f.transports))
    && (forall id | id in f.noted :: id in f.transports)
    && (forall id | id in f.fanned :: Evident(f, id) && (given ==> id in f.transports))
  }

  lemma ProvenControl(f: Fan, id: string)
    requires Base(f.wire) && KnownLogged(f.wire) && id in f.wire.box.proof && !(MAIL_PREFIX <= id)
    ensures ControlKey(id) in f.wire.log
  {
    assert id in Known(f.wire.box);
    ControlKeyShape(id, f.wire.keys[id]);
  }

  lemma WireOrdered(given: bool, f: Fan, step: Wiring.Step)
    requires Ordered(given, f)
    ensures Ordered(given, FanNext(given, f, OnWire(step)))
  {
    LogGrows(f.wire, step);
    StillLogged(f.wire.log, Wiring.Next(f.wire, step).log);
  }

  lemma StillLogged(a: seq<Key>, b: seq<Key>)
    requires a <= b
    ensures forall k | k in a :: k in b
  {
  }

  lemma SendOrdered(given: bool, f: Fan, step: FanStep)
    requires Ordered(given, f) && (step.Transport? || step.Note?)
    ensures Ordered(given, FanNext(given, f, step))
  {
  }

  lemma MarkOrdered(given: bool, f: Fan, step: FanStep)
    requires Ordered(given, f) && (step.MarkFanned? || step.ReadMarker?)
    ensures Ordered(given, FanNext(given, f, step))
  {
  }

  lemma ProofOrdered(given: bool, f: Fan, step: FanStep)
    requires Base(f.wire) && KnownLogged(f.wire) && Ordered(given, f) && step.SeeProof?
    ensures Ordered(given, FanNext(given, f, step))
  {
    if !(MAIL_PREFIX <= step.id) && step.id in f.wire.box.proof { ProvenControl(f, step.id); }
  }

  lemma FanOrdered(given: bool, f: Fan, step: FanStep)
    requires Base(f.wire) && KnownLogged(f.wire) && Ordered(given, f)
    ensures Ordered(given, FanNext(given, f, step))
  {
    if step.OnWire? {
      WireOrdered(given, f, step.step);
    } else if step.SeeProof? {
      ProofOrdered(given, f, step);
    } else if step.Transport? || step.Note? {
      SendOrdered(given, f, step);
    } else {
      MarkOrdered(given, f, step);
    }
  }

  lemma {:induction false} AlwaysOrdered(given: bool, steps: seq<FanStep>)
    ensures Ordered(given, FanRun(given, steps))
  {
    if steps != [] {
      var front := steps[..|steps| - 1];
      AlwaysOrdered(given, front);
      WireIsRun(given, front);
      Reachable(WireSteps(front));
      ProofIsAccepted(WireSteps(front));
      FanOrdered(given, FanRun(given, front), steps[|steps| - 1]);
    }
  }

  /** On every run, with crashes, rebinds and hand-overs anywhere: a control event marked as fanned out was
      accepted by the adapter or bore a marker when the fan-out looked, and was sent at least once if there
      is a transport. */
  lemma MarkedNeedsEvidence(given: bool, steps: seq<FanStep>, id: string)
    requires id in FanRun(given, steps).fanned
    ensures var f := FanRun(given, steps);
            (ControlKey(id) in f.wire.log || id in f.read) && (given ==> id in f.transports)
  {
    AlwaysOrdered(given, steps);
  }

  /** A crash marks nothing.  An event that is not marked yet and bears a marker is finished from it
      without another prompt.  One without a marker is let through again, and taken up by its ingest exactly
      when its own binding version is the one the restart announces. */
  lemma CrashLeavesReplayable(given: bool, steps: seq<FanStep>, e: Event, announced: int)
    requires var f := FanRun(given, steps); e.id !in f.fanned && !(MAIL_PREFIX <= e.id)
    requires e == ControlEvent(e.version, e.id, e.summary.text, e.created)
    ensures var before := FanRun(given, steps);
            var f := FanNext(given, before, OnWire(Crash));
            && e.id !in f.fanned
            && if IsPrompted(before.wire.box.ledger, ControlKey(e.id))
               then e.id in Finished(given, f, e.id).fanned && Finished(given, f, e.id).wire == f.wire
               else e in LetIn(f.wire, e, announced).checked
                    && (e.id in Ids(Wiring.Next(LetIn(f.wire, e, announced), Enter(e)).sys.core.pending) <==>
                        announced == e.version)
  {
    var f := FanNext(given, FanRun(given, steps), OnWire(Crash));
    assert f.wire.box.ledger == FanRun(given, steps).wire.box.ledger;
    if IsPrompted(f.wire.box.ledger, ControlKey(e.id)) {
      ProvenFinishes(given, FanNext(given, f, ReadMarker(e.id)), e.id);
    } else {
      RestartedBase(FanRun(given, steps).wire);
      RestartTakes(f.wire, e, announced);
    }
  }

  /** After a restart: a version is announced, and the event passes the marker check. */
  ghost function LetIn(s: Wire, e: Event, announced: int): Wire {
    Wiring.Next(Wiring.Next(s, Announce(announced)), CheckControl(e.version, e.id, e.summary.text, e.created))
  }

  lemma RestartedBase(s: Wire)
    ensures Base(Crashed(s)) && Crashed(s).sys.core == EMPTY && Crashed(s).sys.air == []
  {
    CrashedBase(s);
  }

  lemma RestartTakes(s: Wire, e: Event, announced: int)
    requires Base(s) && s.sys.core == EMPTY && !(MAIL_PREFIX <= e.id) && !IsPrompted(s.box.ledger, ControlKey(e.id))
    requires e == ControlEvent(e.version, e.id, e.summary.text, e.created)
    ensures var t := LetIn(s, e, announced);
            && e in t.checked
            && (e.id in Ids(Wiring.Next(t, Enter(e)).sys.core.pending) <==> announced == e.version)
  {
    DeliverySteps.BindStep(s.sys, announced);
    NextBase(s, Announce(announced));
    NextBase(Wiring.Next(s, Announce(announced)), CheckControl(e.version, e.id, e.summary.text, e.created));
    ReingestExactly(LetIn(s, e, announced), e);
  }

  /** At any time: the ingest of an event leaves it pending exactly when it was pending before, or its
      version is the active one and it is not delivered yet.  Otherwise it is dropped. */
  lemma ReingestExactly(s: Wire, e: Event)
    requires Base(s) && e in s.checked
    ensures e.id in Ids(Wiring.Next(s, Enter(e)).sys.core.pending) <==>
            || e.id in Ids(s.sys.core.pending)
            || (s.sys.core.active == Some(e.version) && e.id !in s.sys.core.delivered)
  {
    DeliverySteps.IngestIds(s.sys, e);
  }

  /** The marker is read, and transport, note and mark succeed. */
  ghost function Finished(given: bool, f: Fan, id: string): Fan {
    var read := FanNext(given, f, ReadMarker(id));
    var sent := FanNext(given, read, Transport(id, true));
    var noted := FanNext(given, sent, Note(id, true));
    FanNext(given, noted, MarkFanned(id, true))
  }

  lemma ProvenFinishes(given: bool, g: Fan, id: string)
    requires AtStage(g, id, Proven)
    ensures var h := FanNext(given, g, Transport(id, true));
            var i := FanNext(given, h, Note(id, true));
            id in FanNext(given, i, MarkFanned(id, true)).fanned && i.wire == g.wire
  {
  }

  // ---------------------------------------------------------------- once over the Hub

  /** How often the event went over the transport, and that its note says so. */
  ghost predicate NotedAt(f: Fan, id: string, sends: nat) {
    id in f.noted && multiset(f.transports)[id] == sends
  }

  lemma NotedStays(given: bool, f: Fan, step: FanStep, id: string, sends: nat)
    requires NotedAt(f, id, sends)
    ensures NotedAt(FanNext(given, f, step), id, sends)
  {
  }

  /** An event whose transport is noted on its receipt is never sent over the Hub again, in this life or any
      later one, however often its mark in the outbox fails. */
  lemma {:induction false} NotedSentNoMore(given: bool, steps: seq<FanStep>, more: seq<FanStep>, id: string)
    requires steps <= more && id in FanRun(given, steps).noted
    ensures NotedAt(FanRun(given, more), id, multiset(FanRun(given, steps).transports)[id])
    decreases |more|
  {
    if |steps| == |more| {
      assert steps == more;
    } else {
      NotedSentNoMore(given, steps, more[..|more| - 1], id);
      NotedStays(given, FanRun(given, more[..|more| - 1]), more[|more| - 1], id,
                 multiset(FanRun(given, steps).transports)[id]);
    }
  }

  // ---------------------------------------------------------------- what takes a marker back

  lemma MicroRevokes(b: Box, ok: bool, key: Key)
    requires IsPrompted(b.ledger, key) && !IsPrompted(Micro(b, ok).ledger, key)
    ensures ok && b.phase.Clearing? && key in b.targets
  {
  }

  /** Only the clearing of a rejected batch and a pause take a marker away. */
  lemma OnlyRejectionRevokes(s: Wire, step: Wiring.Step, key: Key)
    requires IsPrompted(s.box.ledger, key) && !IsPrompted(Wiring.Next(s, step).box.ledger, key)
    ensures step == Pause(key) || (step == Advance(true) && s.box.phase.Clearing? && key in s.box.targets)
  {
    if step.Advance? && !s.box.phase.Returned? { MicroRevokes(s.box, step.ok, key); }
  }

  lemma FanAppend(given: bool, steps: seq<FanStep>, step: FanStep)
    ensures FanRun(given, steps + [step]) == FanNext(given, FanRun(given, steps), step)
    ensures WireSteps(steps + [step]) == WireSteps(steps) + if step.OnWire? then [step.step] else []
  {
    assert (steps + [step])[..|steps|] == steps;
  }
}

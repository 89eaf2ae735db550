/**
 Every interleaving of lock sections, adapter outcomes and binding switches: conservation of
 events, at most one accepted batch per event and generation, and no loss at a switch.
 */
module DeliveryRuns {
  import opened Prelude
  import opened Delivery

  /** A thread between `_begin_deliver` and `_finish_deliver`; `outcome` once the adapter returned. */
  datatype Call = Call(flight: InFlight, outcome: Option<bool>)

  datatype Acceptance = Acceptance(generation: nat, events: seq<Event>)

  /** The scope, the threads outside the lock, and two histories nothing in the code depends on:
      the batches the adapter accepted, and the ids seen in `pending` since the last switch. */
  datatype System = System(core: Scope, air: seq<Call>, accepted: seq<Acceptance>, entered: set<string>)

  const INITIAL := System(EMPTY, [], [], {})

  datatype Step =
    | DoBind(version: int)
    | DoStatus(status: string)
    | DoIngest(event: Event)
    | DoFlush
    | AdapterReturns(k: nat, accepted: bool)
    | DoFinish(k: nat)

  ghost function Launched(air: seq<Call>, call: Option<InFlight>): seq<Call> {
    if call.Some? then air + [Call(call.value, None)] else air
  }

  /** Record the new core state; `entered` starts again at a switch. */
  ghost function Moved(s: System, core: Scope, air: seq<Call>): System {
    var kept := if core.generation == s.core.generation then s.entered else {};
    s.(core := core, air := air, entered := kept + Ids(core.pending))
  }

  /** A step that is not enabled leaves the system alone. */
  ghost function Next(s: System, step: Step): System {
    match step
    case DoBind(version) =>
      var (core, _, call) := Bind(s.core, version);
      Moved(s, core, Launched(s.air, call))
    case DoStatus(status) =>
      var (core, call) := SetStatus(s.core, status);
      Moved(s, core, Launched(s.air, call))
    case DoIngest(event) =>
      var (core, _, call) := Ingest(s.core, event);
      Moved(s, core, Launched(s.air, call))
    case DoFlush =>
      var (core, call) := Begin(s.core);
      Moved(s, core, Launched(s.air, call))
    case AdapterReturns(k, accepted) =>
      if k < |s.air| && s.air[k].outcome.None? then
        var flight := s.air[k].flight;
        s.(air := s.air[k := Call(flight, Some(accepted))],
           accepted := if accepted then s.accepted + [Acceptance(flight.generation, flight.events)] else s.accepted)
      else s
    case DoFinish(k) =>
      if k < |s.air| && s.air[k].outcome.Some? then
        var (core, _) := Finish(s.core, s.air[k].flight, s.air[k].outcome.value);
        Moved(s, core, s.air[..k] + s.air[k + 1..])
      else s
  }

  ghost function Run(s: System, steps: seq<Step>): System {
    if steps == [] then s else Next(Run(s, steps[..|steps| - 1]), steps[|steps| - 1])
  }

  // ---------------------------------------------------------------- invariant

  /** What was pending in this generation is pending or delivered, never both. */
  ghost predicate Conserved(s: System) {
    && Distinct(s.core.pending)
    && Ids(s.core.pending) !! s.core.delivered
    && s.entered == Ids(s.core.pending) + s.core.delivered
    && Labelled(s.core.pending, s.core.active)
  }

  /** The in-flight mark is exactly the one thread outside the lock. */
  ghost predicate OneCall(s: System) {
    if s.air == [] then s.core.inflight == None
    else
      var flight := s.air[0].flight;
      && |s.air| == 1
      && s.core.inflight == Some(flight)
      && s.core.active.Some?
      && Distinct(flight.events)
      && flight.generation <= s.core.generation
      && (flight.generation == s.core.generation ==> Ids(flight.events) <= Ids(s.core.pending))
  }

  /** The ids accepted for one generation. */
  ghost function AcceptedIds(log: seq<Acceptance>, generation: nat): set<string> {
    if log == [] then {}
    else
      var front, last := log[..|log| - 1], log[|log| - 1];
      AcceptedIds(front, generation) + if last.generation == generation then Ids(last.events) else {}
  }

  /** No batch repeats an id accepted before for its generation. */
  ghost predicate NoRepeat(log: seq<Acceptance>) {
    log == [] ||
    var front, last := log[..|log| - 1], log[|log| - 1];
    NoRepeat(front) && AcceptedIds(front, last.generation) !! Ids(last.events)
  }

  ghost function AwaitingFinish(s: System): set<string> {
    if s.air != [] && s.air[0].outcome == Some(true) && s.air[0].flight.generation == s.core.generation
    then Ids(s.air[0].flight.events) else {}
  }

  /** The ledger agrees with what the adapter accepted for this generation. */
  ghost predicate Ledger(s: System) {
    && NoRepeat(s.accepted)
    && (forall a | a in s.accepted :: a.generation <= s.core.generation)
    && AcceptedIds(s.accepted, s.core.generation) == s.core.delivered + AwaitingFinish(s)
    && (s.air != [] && s.air[0].outcome != Some(true) ==>
          AcceptedIds(s.accepted, s.air[0].flight.generation) !! Ids(s.air[0].flight.events))
  }

  ghost predicate Inv(s: System) {
    Conserved(s) && OneCall(s) && Ledger(s)
  }

  lemma {:induction false} NothingAcceptedAhead(log: seq<Acceptance>, generation: nat)
    requires forall a | a in log :: a.generation < generation
    ensures AcceptedIds(log, generation) == {}
  {
    if log != [] {
      assert log[|log| - 1] in log;
      NothingAcceptedAhead(log[..|log| - 1], generation);
    }
  }

  lemma {:induction false} NoRepeatPairwise(log: seq<Acceptance>, i: nat, j: nat)
    requires NoRepeat(log) && i < j < |log| && log[i].generation == log[j].generation
    ensures Ids(log[i].events) !! Ids(log[j].events)
  {
    var front := log[..|log| - 1];
    if j < |log| - 1 { NoRepeatPairwise(front, i, j); } else { AcceptedCovers(front, i); }
  }

  lemma {:induction false} AcceptedCovers(log: seq<Acceptance>, i: nat)
    requires i < |log|
    ensures Ids(log[i].events) <= AcceptedIds(log, log[i].generation)
  {
    if i < |log| - 1 { AcceptedCovers(log[..|log| - 1], i); }
  }

  // ---------------------------------------------------------------- one step

  lemma {:induction false} LaunchKeeps(s: System, mid: Scope)
    requires Inv(s.(core := mid))
    requires mid.generation == s.core.generation
    ensures var (core, call) := Begin(mid); Inv(Moved(s, core, Launched(s.air, call)))
  {
  }

  lemma {:induction false} BindKeeps(s: System, version: int)
    requires Inv(s)
    ensures Inv(Next(s, DoBind(version)))
  {
    var t := Next(s, DoBind(version));
    if s.core.active != Some(version) {
      assert t.air == s.air && Ids(t.core.pending) == {};
      NothingAcceptedAhead(s.accepted, s.core.generation + 1);
    }
  }

  lemma IngestKeeps(s: System, e: Event)
    requires Inv(s)
    ensures Inv(Next(s, DoIngest(e)))
  {
    if s.core.active == Some(e.version) && e.id !in s.core.delivered {
      if Lookup(s.core.pending, e.id).Some? {
        IngestKnownKeeps(s, e);
      } else {
        IngestNewKeeps(s, e);
      }
    }
  }

  lemma IngestKnownKeeps(s: System, e: Event)
    requires Inv(s) && s.core.active == Some(e.version) && e.id in Ids(s.core.pending) - s.core.delivered
    ensures Inv(Next(s, DoIngest(e)))
  {
    ReplaceFacts(s.core.pending, e, s.core.active);
    IngestKnownIs(s, e);
    SamePendingIdsKeeps(s, Refreshed(s.core.pending, e));
  }

  function Refreshed(pending: seq<Event>, e: Event): seq<Event> {
    var found := Lookup(pending, e.id);
    if found.Some? && e.created >= found.value.created then Replace(pending, e) else pending
  }

  lemma IngestKnownIs(s: System, e: Event)
    requires s.core.active == Some(e.version) && e.id !in s.core.delivered && Lookup(s.core.pending, e.id).Some?
    ensures Next(s, DoIngest(e)) == Moved(s, s.core.(pending := Refreshed(s.core.pending, e)), s.air)
  {
  }

  lemma IngestNewKeeps(s: System, e: Event)
    requires Inv(s) && s.core.active == Some(e.version) && e.id !in s.core.delivered + Ids(s.core.pending)
    ensures Inv(Next(s, DoIngest(e)))
  {
    AppendKeeps(s, e);
    LaunchKeeps(Appended(s, e), Appended(s, e).core);
    IngestNewIs(s, e);
  }

  ghost function Appended(s: System, e: Event): System {
    s.(core := s.core.(pending := s.core.pending + [e]), entered := s.entered + {e.id})
  }

  lemma IngestNewIs(s: System, e: Event)
    requires s.core.active == Some(e.version) && e.id !in s.core.delivered + Ids(s.core.pending)
    ensures var u := Appended(s, e);
            Next(s, DoIngest(e)) == Moved(u, Begin(u.core).0, Launched(u.air, Begin(u.core).1))
  {
    AppendFacts(s.core.pending, e);
  }

  lemma SamePendingIdsKeeps(s: System, pending: seq<Event>)
    requires Inv(s) && Distinct(pending) && Labelled(pending, s.core.active) && Ids(pending) == Ids(s.core.pending)
    ensures Inv(Moved(s, s.core.(pending := pending), s.air))
  {
  }

  lemma AppendKeeps(s: System, e: Event)
    requires Inv(s) && s.core.active == Some(e.version) && e.id !in s.core.delivered + Ids(s.core.pending)
    ensures Inv(Appended(s, e))
  {
    AppendFacts(s.core.pending, e);
  }

  lemma AcceptedAppend(log: seq<Acceptance>, a: Acceptance, generation: nat)
    ensures AcceptedIds(log + [a], generation)
         == AcceptedIds(log, generation) + if a.generation == generation then Ids(a.events) else {}
    ensures NoRepeat(log + [a]) <==> NoRepeat(log) && AcceptedIds(log, a.generation) !! Ids(a.events)
  {
    assert (log + [a])[..|log|] == log;
  }

  lemma AdapterKeeps(s: System, k: nat, accepted: bool)
    requires Inv(s)
    ensures Inv(Next(s, AdapterReturns(k, accepted)))
  {
    if k < |s.air| && s.air[k].outcome.None? {
      var flight := s.air[0].flight;
      assert k == 0 && s.air == [Call(flight, None)];
      assert s.air[k := Call(flight, Some(accepted))] == [Call(flight, Some(accepted))];
      if accepted { AcceptKeeps(s, flight); } else { RejectKeeps(s, flight); }
    }
  }

  lemma RejectKeeps(s: System, flight: InFlight)
    requires Inv(s) && s.air == [Call(flight, None)]
    ensures Inv(s.(air := [Call(flight, Some(false))]))
  {
  }

  lemma AcceptKeeps(s: System, flight: InFlight)
    requires Inv(s) && s.air == [Call(flight, None)]
    ensures Inv(s.(air := [Call(flight, Some(true))],
                   accepted := s.accepted + [Acceptance(flight.generation, flight.events)]))
  {
    AcceptedAppend(s.accepted, Acceptance(flight.generation, flight.events), s.core.generation);
    AcceptedAppend(s.accepted, Acceptance(flight.generation, flight.events), flight.generation);
  }

  lemma FinishKeeps(s: System, k: nat)
    requires Inv(s)
    ensures Inv(Next(s, DoFinish(k)))
  {
    if k < |s.air| && s.air[k].outcome.Some? {
      assert s.air[..k] + s.air[k + 1..] == [];
      if s.air[0].outcome.value && s.core.generation == s.air[0].flight.generation {
        FinishDeliveredKeeps(s);
      } else {
        FinishRequeuedKeeps(s);
      }
    }
  }

  lemma FinishDeliveredKeeps(s: System)
    requires Inv(s) && s.air != [] && s.air[0].outcome == Some(true)
    requires s.core.generation == s.air[0].flight.generation
    ensures Inv(Moved(s, Finish(s.core, s.air[0].flight, true).0, []))
  {
    PopAllFacts(s.core.pending, s.air[0].flight.events, s.core.active);
  }

  lemma FinishRequeuedKeeps(s: System)
    requires Inv(s) && s.air != [] && s.air[0].outcome.Some?
    requires s.air[0].outcome.value ==> s.core.generation != s.air[0].flight.generation
    ensures Inv(Moved(s, Finish(s.core, s.air[0].flight, s.air[0].outcome.value).0, []))
  {
    RequeueAllFacts(s.core.pending, s.core.delivered, s.core.active.value, s.air[0].flight.events);
  }

  lemma {:induction false} NextKeeps(s: System, step: Step)
    requires Inv(s)
    ensures Inv(Next(s, step))
  {
    match step
    case DoBind(version) => BindKeeps(s, version);
    case DoStatus(status) => LaunchKeeps(s, s.core.(status := Some(status)));
    case DoIngest(event) => IngestKeeps(s, event);
    case DoFlush => LaunchKeeps(s, s.core);
    case AdapterReturns(k, accepted) => AdapterKeeps(s, k, accepted);
    case DoFinish(k) => FinishKeeps(s, k);
  }

  // ---------------------------------------------------------------- all runs

  lemma {:induction false} RunKeeps(s: System, steps: seq<Step>)
    requires Inv(s)
    ensures Inv(Run(s, steps))
  {
    if steps != [] {
      RunKeeps(s, steps[..|steps| - 1]);
      NextKeeps(Run(s, steps[..|steps| - 1]), steps[|steps| - 1]);
    }
  }

  lemma InitialInv()
    ensures Inv(INITIAL)
  {
  }

  ghost predicate Counted(s: System) {
    s.core.deliveredCount == |s.core.delivered|
  }

  lemma {:induction false} DisjointUnionSize(a: set<string>, events: seq<Event>)
    requires a !! Ids(events) && Distinct(events)
    ensures |a + Ids(events)| == |a| + |events|
  {
    DistinctSize(events);
  }

  lemma CountKeeps(s: System, step: Step)
    requires Inv(s) && Counted(s)
    ensures Counted(Next(s, step))
  {
    if step.DoFinish? && step.k < |s.air| && s.air[step.k].outcome.Some? {
      var flight := s.air[0].flight;
      if s.air[0].outcome.value && flight.generation == s.core.generation {
        DeliveredDisjoint(s);
        FinishCounts(s.core, flight);
      } else {
        RequeueUncounted(s.core, flight, s.air[0].outcome.value);
      }
    } else if step.DoBind? && s.core.active != Some(step.version) {
      BindCounts(s.core, step.version);
    } else {
      UncountedStep(s, step);
    }
  }

  lemma FinishCounts(core: Scope, flight: InFlight)
    requires core.deliveredCount == |core.delivered| && flight.generation == core.generation
    requires core.delivered !! Ids(flight.events) && Distinct(flight.events)
    ensures var t := Finish(core, flight, true).0; t.deliveredCount == |t.delivered|
  {
    DisjointUnionSize(core.delivered, flight.events);
  }

  lemma RequeueUncounted(core: Scope, flight: InFlight, accepted: bool)
    requires accepted ==> flight.generation != core.generation
    ensures var t := Finish(core, flight, accepted).0;
            t.deliveredCount == core.deliveredCount && t.delivered == core.delivered
  {
  }

  lemma BindCounts(core: Scope, version: int)
    requires core.active != Some(version)
    ensures var t := Bind(core, version).0; t.deliveredCount == 0 && t.delivered == {}
  {
  }

  lemma UncountedStep(s: System, step: Step)
    requires !step.DoFinish? || step.k >= |s.air| || s.air[step.k].outcome.None?
    requires step.DoBind? ==> s.core.active == Some(step.version)
    ensures Next(s, step).core.delivered == s.core.delivered
    ensures Next(s, step).core.deliveredCount == s.core.deliveredCount
  {
  }

  lemma {:induction false} DeliveredDisjoint(s: System)
    requires Inv(s) && s.air != [] && s.air[0].flight.generation == s.core.generation
    ensures s.core.delivered !! Ids(s.air[0].flight.events) && Distinct(s.air[0].flight.events)
  {
  }

  lemma {:induction false} RunCounted(steps: seq<Step>)
    ensures Counted(Run(INITIAL, steps))
  {
    if steps != [] {
      var front := steps[..|steps| - 1];
      RunCounted(front);
      InitialInv();
      RunKeeps(INITIAL, front);
      CountKeeps(Run(INITIAL, front), steps[|steps| - 1]);
    }
  }

  /** Conservation in every reachable state. */
  lemma Conservation(steps: seq<Step>)
    ensures var s := Run(INITIAL, steps);
            && s.entered == Ids(s.core.pending) + s.core.delivered
            && Ids(s.core.pending) !! s.core.delivered
            && Distinct(s.core.pending)
            && Labelled(s.core.pending, s.core.active)
            && s.core.deliveredCount == |s.core.delivered|
            && |s.air| <= 1
  {
    InitialInv();
    RunKeeps(INITIAL, steps);
    RunCounted(steps);
  }

  /** Two accepted batches of one generation never share an event; and with no call outside the lock
      the delivered ids are exactly the ids accepted for this generation. */
  lemma {:induction false} AtMostOncePerGeneration(steps: seq<Step>, i: nat, j: nat)
    requires i < j < |Run(INITIAL, steps).accepted|
    ensures var s := Run(INITIAL, steps);
            && (s.accepted[i].generation == s.accepted[j].generation ==>
                  Ids(s.accepted[i].events) !! Ids(s.accepted[j].events))
            && (s.air == [] ==> s.core.delivered == AcceptedIds(s.accepted, s.core.generation))
  {
    InitialInv();
    RunKeeps(INITIAL, steps);
    var s := Run(INITIAL, steps);
    if s.accepted[i].generation == s.accepted[j].generation { NoRepeatPairwise(s.accepted, i, j); }
  }

  /** A switch hands the caller exactly the old pending events, starts an empty generation, and (as
      nothing is pending then) never starts a delivery itself. */
  lemma {:induction false} SwitchHandsOver(steps: seq<Step>, version: int)
    requires Run(INITIAL, steps).core.active != Some(version)
    ensures var s := Run(INITIAL, steps);
            var (core, cleared, call) := Bind(s.core, version);
            && cleared == s.core.pending && call == None
            && core == s.core.(active := Some(version), generation := s.core.generation + 1,
                               pending := [], delivered := {}, deliveredCount := 0)
  {
  }

  /** A result that arrives after a switch, accepted or not, leaves each of its events pending under
      the new version or already delivered in the new generation. */
  lemma {:induction false} LateResultLosesNothing(steps: seq<Step>, k: nat)
    requires var s := Run(INITIAL, steps);
             k < |s.air| && s.air[k].outcome.Some? && s.air[k].flight.generation != s.core.generation
    ensures var s, t := Run(INITIAL, steps), Next(Run(INITIAL, steps), DoFinish(k));
            && (forall id | id in Ids(s.air[k].flight.events) ::
                  (id in Ids(t.core.pending)) != (id in t.core.delivered))
            && Labelled(t.core.pending, s.core.active)
            && t.core.delivered == s.core.delivered
            && s.core.pending <= t.core.pending
  {
    var s := Run(INITIAL, steps);
    InitialInv();
    RunKeeps(INITIAL, steps);
    FinishKeeps(s, k);
    assert s.air[k] in s.air;
    var flight := s.air[k].flight;
    RequeueAllFacts(s.core.pending, s.core.delivered, s.core.active.value, flight.events);
  }

  /** A rejection in the same generation changes neither `pending` nor the ledger. */
  lemma {:induction false} RejectionKeepsPending(steps: seq<Step>, k: nat)
    requires var s := Run(INITIAL, steps);
             k < |s.air| && s.air[k].outcome == Some(false) && s.air[k].flight.generation == s.core.generation
    ensures var s, t := Run(INITIAL, steps), Next(Run(INITIAL, steps), DoFinish(k));
            t.core.pending == s.core.pending && t.core.delivered == s.core.delivered && t.entered == s.entered
  {
    InitialInv();
    RunKeeps(INITIAL, steps);
    RejectedAt(Run(INITIAL, steps), k);
  }

  lemma RejectedAt(s: System, k: nat)
    requires Inv(s) && k < |s.air| && s.air[k].outcome == Some(false) && s.air[k].flight.generation == s.core.generation
    ensures var t := Next(s, DoFinish(k));
            t.core.pending == s.core.pending && t.core.delivered == s.core.delivered && t.entered == s.entered
  {
    assert k == 0;
    Rejected(s);
  }

  lemma Rejected(s: System)
    requires Inv(s) && s.air != [] && s.air[0].outcome == Some(false) && s.air[0].flight.generation == s.core.generation
    ensures var t := Next(s, DoFinish(0));
            t.core.pending == s.core.pending && t.core.delivered == s.core.delivered && t.entered == s.entered
  {
    var flight := s.air[0].flight;
    RequeuePresent(s.core.pending, s.core.delivered, s.core.active.value, flight.events);
    assert Finish(s.core, flight, false).0.pending == s.core.pending;
  }

  lemma {:induction false} RequeuePresent(pending: seq<Event>, delivered: set<string>, version: int, events: seq<Event>)
    requires Ids(events) <= Ids(pending)
    ensures RequeueAll(pending, delivered, version, events) == pending
  {
    if events != [] {
      RequeuePresent(pending, delivered, version, events[..|events| - 1]);
    }
  }

  // ---------------------------------------------------------------- switches made by sync_bindings

  ghost predicate NoSwitch(version: int, steps: seq<Step>) {
    forall step | step in steps && step.DoBind? :: step.version == version
  }

  /** Between switches nothing that entered `pending` is forgotten. */
  lemma {:induction false} EnteredGrows(s: System, version: int, steps: seq<Step>)
    requires s.core.active == Some(version) && NoSwitch(version, steps)
    ensures var t := Run(s, steps);
            && t.core.active == Some(version) && t.core.generation == s.core.generation
            && s.entered <= t.entered
  {
    if steps != [] {
      EnteredGrows(s, version, steps[..|steps| - 1]);
    }
  }

  lemma {:induction false} RunConcat(s: System, a: seq<Step>, b: seq<Step>)
    ensures Run(s, a + b) == Run(Run(s, a), b)
  {
    if b == [] {
      assert a + b == a;
    } else {
      RunConcat(s, a, b[..|b| - 1]);
      assert (a + b)[..|a + b| - 1] == a + b[..|b| - 1];
    }
  }

  lemma {:induction false} IngestEnters(s: System, e: Event)
    requires Inv(s) && s.core.active == Some(e.version)
    ensures e.id in Next(s, DoIngest(e)).entered
  {
    if e.id !in s.core.delivered && Lookup(s.core.pending, e.id).None? {
      IngestNewIs(s, e);
      AppendFacts(s.core.pending, e);
    }
  }

  /** An event ingested somewhere in a run without a switch is remembered at its end. */
  lemma {:induction false} IngestedStays(s: System, version: int, steps: seq<Step>, e: Event)
    requires Inv(s) && s.core.active == Some(version) == Some(e.version)
    requires NoSwitch(version, steps) && DoIngest(e) in steps
    ensures e.id in Run(s, steps).entered
  {
    var i :| 0 <= i < |steps| && steps[i] == DoIngest(e);
    var upto, rest := steps[..i + 1], steps[i + 1..];
    assert upto[..i] == steps[..i] && steps == upto + rest;
    RunKeeps(s, steps[..i]);
    EnteredGrows(s, version, steps[..i]);
    IngestEnters(Run(s, steps[..i]), e);
    EnteredGrows(s, version, upto);
    RunConcat(s, upto, rest);
    EnteredGrows(Run(s, upto), version, rest);
  }

  lemma {:induction false} CoveredIds(events: seq<Event>, ids: set<string>)
    requires forall e | e in events :: e.id in ids
    ensures Ids(events) <= ids
  {
    if events != [] {
      assert events[|events| - 1] in events;
      CoveredIds(events[..|events| - 1], ids);
    }
  }

  /** `sync_bindings` switches and then ingests every cleared event under the new version, while any
      other threads run in between: every id pending before is pending or delivered afterwards. */
  lemma {:induction false} SyncLosesNothing(before: seq<Step>, version: int, during: seq<Step>)
    requires var s := Run(INITIAL, before);
             && s.core.active != Some(version)
             && NoSwitch(version, during)
             && (forall e | e in s.core.pending :: DoIngest(e.(version := version)) in during)
    ensures var s, t := Run(INITIAL, before), Run(INITIAL, before + [DoBind(version)] + during);
            && Ids(s.core.pending) <= Ids(t.core.pending) + t.core.delivered
            && t.core.generation == s.core.generation + 1 && t.core.active == Some(version)
  {
    var s := Run(INITIAL, before);
    var b := before + [DoBind(version)];
    assert b[..|b| - 1] == before;
    var u := Run(INITIAL, b);
    InitialInv();
    RunKeeps(INITIAL, b);
    RunKeeps(INITIAL, b + during);
    RunConcat(INITIAL, b, during);
    EnteredGrows(u, version, during);
    forall e | e in s.core.pending ensures e.id in Run(u, during).entered {
      IngestedStays(u, version, during, e.(version := version));
    }
    CoveredIds(s.core.pending, Run(u, during).entered);
  }
}

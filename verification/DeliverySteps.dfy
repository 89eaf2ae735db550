/** What each step of the delivery core does to `pending`, the ledger and the call outside the lock. */
module DeliverySteps {
  import opened Prelude
  import opened Delivery
  import opened DeliveryRuns

  /** The call outside the lock, if any, has not returned. */
  ghost predicate Ready(s: System) {
    Inv(s) && (s.air != [] ==> s.air[0].outcome.None?)
  }

  /** No call returned and no switch: the ledger stays, a call outside the lock stays, and a new one takes
      all of `pending`, which only `extra` may have joined. */
  ghost predicate Advanced(s: System, t: System, extra: set<Event>) {
    && t.core.delivered == s.core.delivered
    && t.core.active == s.core.active && t.core.generation == s.core.generation
    && (s.air != [] ==> t.air == s.air)
    && (s.air == [] && t.air != [] ==>
          t.air[0].flight.events == t.core.pending && t.core.pending != []
          && t.air[0].flight.generation == t.core.generation)
    && (forall e | e in t.core.pending :: e in s.core.pending || e in extra)
  }

  lemma LaunchStep(s: System, mid: Scope)
    requires Ready(s.(core := mid)) && mid.generation == s.core.generation
    ensures var t := Moved(s, Begin(mid).0, Launched(s.air, Begin(mid).1)); Ready(t) && Advanced(s.(core := mid), t, {})
  {
    LaunchKeeps(s, mid);
  }

  lemma StatusStep(s: System, status: string)
    requires Ready(s)
    ensures var t := Next(s, DoStatus(status)); Ready(t) && Advanced(s, t, {})
  {
    LaunchStep(s, s.core.(status := Some(status)));
  }

  lemma FlushStep(s: System)
    requires Ready(s)
    ensures var t := Next(s, DoFlush); Ready(t) && Advanced(s, t, {})
  {
    LaunchStep(s, s.core);
  }

  lemma {:induction false} ReplaceMembers(s: seq<Event>, e: Event)
    ensures forall x | x in Replace(s, e) :: x in s || x == e
  {
    if s != [] { ReplaceMembers(s[..|s| - 1], e); }
  }

  /** What an ingest lets into `pending`. */
  function Admitted(core: Scope, e: Event): set<Event> {
    if core.active == Some(e.version) && e.id !in core.delivered then {e} else {}
  }

  lemma IngestStep(s: System, e: Event)
    requires Ready(s)
    ensures var t := Next(s, DoIngest(e)); Ready(t) && Advanced(s, t, Admitted(s.core, e))
  {
    if s.core.active == Some(e.version) && e.id !in s.core.delivered {
      if Lookup(s.core.pending, e.id).Some? {
        IngestKnownKeeps(s, e);
        IngestKnownIs(s, e);
        ReplaceMembers(s.core.pending, e);
      } else {
        AppendKeeps(s, e);
        IngestNewIs(s, e);
        LaunchStep(Appended(s, e), Appended(s, e).core);
      }
    }
  }

  /** Any step but a switch and the return of a call. */
  lemma CoreStep(s: System, step: Step)
    requires Ready(s) && (step.DoStatus? || step.DoIngest? || step.DoFlush?)
    ensures Ready(Next(s, step))
    ensures Advanced(s, Next(s, step), if step.DoIngest? then Admitted(s.core, step.event) else {})
  {
    match step
    case DoStatus(status) => StatusStep(s, status);
    case DoIngest(e) => IngestStep(s, e);
    case DoFlush => FlushStep(s);
  }

  /** A switch empties `pending` and the ledger and starts no call. */
  lemma BindStep(s: System, version: int)
    requires Ready(s)
    ensures var t := Next(s, DoBind(version));
            && Ready(t) && t.air == s.air && t.core.active == Some(version)
            && if s.core.active == Some(version) then t.core == s.core
               else t.core.pending == [] && t.core.delivered == {} && t.core.generation == s.core.generation + 1
    ensures Bind(s.core, version).1 == if s.core.active == Some(version) then [] else s.core.pending
  {
    BindKeeps(s, version);
  }

  lemma {:induction false} PopMembers(s: seq<Event>, id: string)
    ensures forall x | x in Pop(s, id) :: x in s
  {
    if s != [] { PopMembers(s[..|s| - 1], id); }
  }

  lemma {:induction false} PopAllMembers(s: seq<Event>, events: seq<Event>)
    ensures forall x | x in PopAll(s, events) :: x in s
  {
    if events != [] {
      PopAllMembers(s, events[..|events| - 1]);
      PopMembers(PopAll(s, events[..|events| - 1]), events[|events| - 1].id);
    }
  }

  /** What is put back is an old event under a new version. */
  lemma {:induction false} RequeueMembers(pending: seq<Event>, delivered: set<string>, version: int, events: seq<Event>)
    ensures forall x | x in RequeueAll(pending, delivered, version, events) ::
              x in pending || exists e :: e in events && x == e.(version := version)
  {
    if events != [] {
      var front, last := events[..|events| - 1], events[|events| - 1];
      RequeueMembers(pending, delivered, version, front);
      forall x | x in RequeueAll(pending, delivered, version, events)
        ensures x in pending || exists e :: e in events && x == e.(version := version)
      {
        if x in RequeueAll(pending, delivered, version, front) {
          if x !in pending {
            var e :| e in front && x == e.(version := version);
            assert e in events;
          }
        } else {
          assert last in events && x == last.(version := version);
        }
      }
    }
  }

  /** The adapter returns and the call is finished. */
  ghost function Closed(s: System, accepted: bool): System {
    Next(Next(s, AdapterReturns(0, accepted)), DoFinish(0))
  }

  /** The call was accepted for the generation that is still the current one. */
  ghost predicate InTime(s: System, accepted: bool)
    requires s.air != []
  {
    accepted && s.air[0].flight.generation == s.core.generation
  }

  lemma ClosedIs(s: System, accepted: bool)
    requires Ready(s) && s.air != []
    ensures var t := Closed(s, accepted);
            Ready(t) && t.air == [] && t.core == Finish(s.core, s.air[0].flight, accepted).0
  {
    var mid := Next(s, AdapterReturns(0, accepted));
    AdapterKeeps(s, 0, accepted);
    FinishKeeps(mid, 0);
    assert mid.air[..0] + mid.air[1..] == [];
  }

  lemma CloseStep(s: System, accepted: bool)
    requires Ready(s) && s.air != []
    ensures var t, batch := Closed(s, accepted), s.air[0].flight.events;
            && Ready(t) && t.air == []
            && t.core.active == s.core.active && t.core.generation == s.core.generation
            && t.core.delivered == s.core.delivered + (if InTime(s, accepted) then Ids(batch) else {})
            && Ids(t.core.pending) == (if InTime(s, accepted) then Ids(s.core.pending) - Ids(batch)
                                       else Ids(s.core.pending) + (Ids(batch) - s.core.delivered))
    ensures var t, batch := Closed(s, accepted), s.air[0].flight.events;
            forall x | x in t.core.pending ::
              x in s.core.pending || exists e :: e in batch && x == e.(version := s.core.active.value)
  {
    ClosedIs(s, accepted);
    var batch := s.air[0].flight.events;
    if InTime(s, accepted) {
      PopAllMembers(s.core.pending, batch);
      PopAllFacts(s.core.pending, batch, s.core.active);
    } else {
      RequeueMembers(s.core.pending, s.core.delivered, s.core.active.value, batch);
      RequeueAllFacts(s.core.pending, s.core.delivered, s.core.active.value, batch);
    }
  }

  /** A status that makes the target eligible starts a delivery of everything pending. */
  lemma IdleLaunches(s: System)
    requires Ready(s) && s.air == [] && s.core.pending != []
    ensures var t := Next(s, DoStatus("idle"));
            && t.core.pending == s.core.pending && t.air != [] && t.air[0].flight.events == s.core.pending
  {
  }

  /** A new event joins `pending`, and a delivery it starts takes it along. */
  lemma NewJoins(s: System, e: Event)
    requires Ready(s) && s.core.active == Some(e.version)
    requires e.id !in s.core.delivered + Ids(s.core.pending)
    ensures var t := Next(s, DoIngest(e));
            && Ids(t.core.pending) == Ids(s.core.pending) + {e.id}
            && (s.air == [] && t.air != [] ==> t.air[0].flight.events == t.core.pending)
  {
    IngestNewIs(s, e);
    AppendFacts(s.core.pending, e);
  }

  /** The ids an ingest leaves pending: the event is among them exactly when it was before, or is of the
      active version and not delivered yet. */
  lemma IngestIds(s: System, e: Event)
    requires Ready(s)
    ensures Ids(Next(s, DoIngest(e)).core.pending) ==
            Ids(s.core.pending) + if s.core.active == Some(e.version) && e.id !in s.core.delivered then {e.id} else {}
  {
    if s.core.active == Some(e.version) && e.id !in s.core.delivered {
      if Lookup(s.core.pending, e.id).Some? {
        IngestKnownIs(s, e);
        RefreshedIds(s.core, e);
      } else {
        NewJoins(s, e);
      }
    }
  }

  lemma RefreshedIds(core: Scope, e: Event)
    requires Distinct(core.pending) && Labelled(core.pending, core.active) && core.active == Some(e.version)
    ensures Ids(Refreshed(core.pending, e)) == Ids(core.pending)
  {
    ReplaceFacts(core.pending, e, core.active);
  }
}

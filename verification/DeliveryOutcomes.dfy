/**
 How each step of the delivery core ends, in every reachable state: when a call starts and what it carries,
 and what an ingest and the end of a call do to the ordered dict, the ledger and the late results.
 */
module DeliveryOutcomes {
  import opened Prelude
  import opened Delivery
  import opened DeliveryRuns

  // ---------------------------------------------------------------- the start of a call

  /** The steps that look for a delivery to start: a report of the status, a flush, and the ingest of an
      event of the active version that is neither pending nor delivered. */
  ghost predicate Tries(core: Scope, step: Step) {
    || step.DoStatus? || step.DoFlush?
    || (step.DoIngest? && core.active == Some(step.event.version)
        && step.event.id !in core.delivered + Ids(core.pending))
  }

  ghost predicate Started(s: System, t: System) {
    |t.air| > |s.air|
  }

  /** The one call outside the lock holds everything pending, under the binding that is active. */
  ghost predicate Carries(t: System) {
    && t.core.active.Some? && |t.air| == 1 && t.air[0].outcome == None
    && t.air[0].flight.events == t.core.pending
    && t.air[0].flight.version == t.core.active.value && t.air[0].flight.generation == t.core.generation
  }

  /** The target has been reported as taking prompts. */
  predicate AtRest(status: Option<string>) {
    status == Some("idle") || status == Some("done") || status == Some("ready")
  }

  lemma BeginExactly(s: System, mid: Scope)
    requires Inv(s.(core := mid)) && mid.generation == s.core.generation
    ensures var t := Moved(s, Begin(mid).0, Launched(s.air, Begin(mid).1));
            && t.core.status == mid.status && t.core.pending == mid.pending && t.core.active == mid.active
            && (Started(s, t) <==> s.air == [] && AtRest(mid.status) && mid.active.Some? && mid.pending != [])
            && (Started(s, t) ==> Carries(t))
  {
  }

  /** What a step leaves pending if it looks for a delivery to start. */
  function Joined(core: Scope, step: Step): seq<Event> {
    core.pending + if step.DoIngest? then [step.event] else []
  }

  ghost predicate StartsExactly(s: System, step: Step, t: System) {
    && t.core.status == (if step.DoStatus? then Some(step.status) else s.core.status)
    && (Tries(s.core, step) ==> t.core.pending == Joined(s.core, step) && t.core.active == s.core.active)
    && (Started(s, t) <==>
          Tries(s.core, step) && s.air == [] && AtRest(t.core.status) && t.core.active.Some? && t.core.pending != [])
    && (Started(s, t) ==> Carries(t))
  }

  lemma TryExactly(s: System, step: Step)
    requires Inv(s) && Tries(s.core, step)
    ensures StartsExactly(s, step, Next(s, step))
  {
    match step
    case DoStatus(status) => BeginExactly(s, s.core.(status := Some(status)));
    case DoFlush => BeginExactly(s, s.core);
    case DoIngest(e) =>
      AppendKeeps(s, e);
      IngestNewIs(s, e);
      BeginExactly(Appended(s, e), Appended(s, e).core);
  }

  lemma OtherExactly(s: System, step: Step)
    requires Inv(s) && !Tries(s.core, step)
    ensures StartsExactly(s, step, Next(s, step))
  {
  }

  /** Over every run, a step starts a call exactly when it looks for one, the target has been reported as
      idle, done or ready by then, a binding is active, something is pending and no call is outside the
      lock; and the call carries everything pending, for the active version and generation. */
  lemma LaunchExactly(steps: seq<Step>, step: Step)
    ensures var s, t := Run(INITIAL, steps), Next(Run(INITIAL, steps), step);
            && t.core.status == (if step.DoStatus? then Some(step.status) else s.core.status)
            && (Tries(s.core, step) ==> t.core.pending == Joined(s.core, step) && t.core.active == s.core.active)
            && (|t.air| > |s.air| <==>
                  && Tries(s.core, step) && s.air == []
                  && (t.core.status == Some("idle") || t.core.status == Some("done") || t.core.status == Some("ready"))
                  && t.core.active.Some? && t.core.pending != [])
            && (|t.air| > |s.air| ==>
                  && |t.air| == 1 && t.air[0].outcome == None
                  && t.air[0].flight.events == t.core.pending
                  && Some(t.air[0].flight.version) == t.core.active
                  && t.air[0].flight.generation == t.core.generation)
  {
    var s := Run(INITIAL, steps);
    InitialInv();
    RunKeeps(INITIAL, steps);
    if Tries(s.core, step) { TryExactly(s, step); } else { OtherExactly(s, step); }
  }

  /** No step under a busy target starts a call. */
  lemma BusyIsDeferred(steps: seq<Step>, step: Step, busy: string)
    requires busy in {"working", "typing", "unavailable"}
    requires var t := Next(Run(INITIAL, steps), step); t.core.status == Some(busy)
    ensures var s, t := Run(INITIAL, steps), Next(Run(INITIAL, steps), step); |t.air| <= |s.air|
  {
    LaunchExactly(steps, step);
  }

  // ---------------------------------------------------------------- the ordered dict

  lemma {:induction false} IdsAt(events: seq<Event>, i: nat)
    requires i < |events|
    ensures events[i].id in Ids(events)
  {
    if i < |events| - 1 { IdsAt(events[..|events| - 1], i); }
  }

  lemma {:induction false} LookupAt(events: seq<Event>, i: nat)
    requires Distinct(events) && i < |events|
    ensures Lookup(events, events[i].id) == Some(events[i])
  {
    if i < |events| - 1 {
      LookupAt(events[..|events| - 1], i);
      IdsAt(events[..|events| - 1], i);
    }
  }

  lemma {:induction false} ReplaceAt(events: seq<Event>, i: nat, e: Event)
    requires Distinct(events) && i < |events| && events[i].id == e.id
    ensures Replace(events, e) == events[i := e]
  {
    if i < |events| - 1 {
      ReplaceAt(events[..|events| - 1], i, e);
      IdsAt(events[..|events| - 1], i);
    }
  }

  /** A second summary of a pending event takes the place of the first one, in the same position, unless
      it is older; no call starts, and the event counts as a duplicate. */
  lemma NewestSummaryStays(steps: seq<Step>, e: Event, i: nat)
    requires var s := Run(INITIAL, steps);
             s.core.active == Some(e.version) && i < |s.core.pending| && s.core.pending[i].id == e.id
    ensures var s, t := Run(INITIAL, steps), Next(Run(INITIAL, steps), DoIngest(e));
            && t.core.pending ==
                 (if e.created >= s.core.pending[i].created then s.core.pending[i := e] else s.core.pending)
            && t.air == s.air && Ingest(s.core, e).1 == Duplicate
  {
    Conservation(steps);
    SummaryReplaced(Run(INITIAL, steps), e, i);
  }

  lemma SummaryReplaced(s: System, e: Event, i: nat)
    requires Distinct(s.core.pending) && Ids(s.core.pending) !! s.core.delivered
    requires s.core.active == Some(e.version) && i < |s.core.pending| && s.core.pending[i].id == e.id
    ensures var t := Next(s, DoIngest(e));
            && t.core.pending ==
                 (if e.created >= s.core.pending[i].created then s.core.pending[i := e] else s.core.pending)
            && t.air == s.air && Ingest(s.core, e).1 == Duplicate
  {
    IdsAt(s.core.pending, i);
    LookupAt(s.core.pending, i);
    ReplaceAt(s.core.pending, i, e);
    IngestKnownIs(s, e);
  }

  // ---------------------------------------------------------------- the end of a call

  /** The events of `pending` that a batch does not hold, in order. */
  lemma {:induction false} PopAt(pending: seq<Event>, id: string) returns (at: seq<nat>)
    requires Distinct(pending)
    ensures TakenAt(Pop(pending, id), pending, at)
    ensures forall i | 0 <= i < |pending| :: i in at <==> pending[i].id != id
  {
    if pending == [] {
      at := [];
    } else {
      var front, last := pending[..|pending| - 1], pending[|pending| - 1];
      assert pending == front + [last];
      if last.id == id {
        at := seq(|front|, i => i);
        forall i | 0 <= i < |front| ensures i in at && front[i].id != id { assert at[i] == i; IdsAt(front, i); }
      } else {
        var before := PopAt(front, id);
        TakenNext(Pop(front, id), front, before, last);
        at := before + [|front|];
      }
    }
  }

  lemma TakenTwice<T>(a: seq<T>, b: seq<T>, c: seq<T>, inner: seq<nat>, outer: seq<nat>) returns (at: seq<nat>)
    requires TakenAt(a, b, inner) && TakenAt(b, c, outer)
    ensures TakenAt(a, c, at) && |at| == |inner| && forall k | 0 <= k < |at| :: at[k] == outer[inner[k]]
  {
    at := seq(|inner|, k requires 0 <= k < |inner| => outer[inner[k]]);
  }

  lemma {:induction false} PopAllAt(pending: seq<Event>, events: seq<Event>) returns (at: seq<nat>)
    requires Distinct(pending)
    ensures TakenAt(PopAll(pending, events), pending, at)
    ensures forall i | 0 <= i < |pending| :: i in at <==> pending[i].id !in Ids(events)
  {
    if events == [] {
      at := seq(|pending|, i => i);
      forall i | 0 <= i < |pending| ensures i in at { assert at[i] == i; }
    } else {
      var front, id := events[..|events| - 1], events[|events| - 1].id;
      var outer := PopAllAt(pending, front);
      PopAllDistinct(pending, front);
      var inner := PopAt(PopAll(pending, front), id);
      at := TakenTwice(PopAll(pending, events), PopAll(pending, front), pending, inner, outer);
      forall i | 0 <= i < |pending| ensures i in at <==> pending[i].id !in Ids(events) {
        if i in outer {
          var k :| 0 <= k < |outer| && outer[k] == i;
          assert PopAll(pending, front)[k] == pending[i];
          if k in inner {
            var n :| 0 <= n < |inner| && inner[n] == k;
            assert at[n] == i;
          }
        }
        if i in at {
          var n :| 0 <= n < |at| && at[n] == i;
          assert inner[n] in inner && outer[inner[n]] in outer;
        }
      }
    }
  }

  lemma {:induction false} PopDistinct(pending: seq<Event>, id: string)
    requires Distinct(pending)
    ensures Distinct(Pop(pending, id)) && Ids(Pop(pending, id)) == Ids(pending) - {id}
  {
    if pending != [] {
      var front, last := pending[..|pending| - 1], pending[|pending| - 1];
      if last.id != id {
        PopDistinct(front, id);
        AppendFacts(Pop(front, id), last);
      }
    }
  }

  lemma {:induction false} PopAllDistinct(pending: seq<Event>, events: seq<Event>)
    requires Distinct(pending)
    ensures Distinct(PopAll(pending, events))
  {
    if events != [] {
      PopAllDistinct(pending, events[..|events| - 1]);
      PopDistinct(PopAll(pending, events[..|events| - 1]), events[|events| - 1].id);
    }
  }

  lemma FinishIs(s: System, k: nat)
    requires k < |s.air| && s.air[k].outcome.Some?
    ensures Next(s, DoFinish(k)).core == Finish(s.core, s.air[k].flight, s.air[k].outcome.value).0
  {
  }

  /** The events of the batch have left `pending`, in place, for the ledger; no late result is recorded. */
  ghost predicate Taken(s: Scope, t: Scope, batch: seq<Event>, at: seq<nat>) {
    && TakenAt(t.pending, s.pending, at)
    && (forall i | 0 <= i < |s.pending| :: i in at <==> s.pending[i].id !in Ids(batch))
    && t.delivered == s.delivered + Ids(batch) && t.late == s.late && t.active == s.active
  }

  lemma FinishTakes(core: Scope, call: InFlight) returns (at: seq<nat>)
    requires Distinct(core.pending) && call.generation == core.generation
    ensures Taken(core, Finish(core, call, true).0, call.events, at)
  {
    at := PopAllAt(core.pending, call.events);
  }

  /** An acceptance for the generation that is still current takes exactly the events of the call out of
      `pending`. */
  lemma InTimeExactly(steps: seq<Step>, k: nat) returns (at: seq<nat>)
    requires var s := Run(INITIAL, steps);
             && k < |s.air| && s.air[k].outcome == Some(true)
             && s.air[k].flight.generation == s.core.generation
    ensures var s := Run(INITIAL, steps); Taken(s.core, Next(s, DoFinish(k)).core, s.air[k].flight.events, at)
  {
    var s := Run(INITIAL, steps);
    Conservation(steps);
    FinishIs(s, k);
    at := FinishTakes(s.core, s.air[k].flight);
  }

  /** The undelivered ids of a batch, in order. */
  lemma {:induction false} UndeliveredAt(delivered: set<string>, events: seq<Event>) returns (at: seq<nat>)
    ensures TakenAt(Undelivered(delivered, events), IdList(events), at)
    ensures forall i | 0 <= i < |events| :: i in at <==> events[i].id !in delivered
  {
    if events == [] {
      at := [];
    } else {
      var front, last := events[..|events| - 1], events[|events| - 1];
      var before := UndeliveredAt(delivered, front);
      assert IdList(events) == IdList(front) + [last.id];
      TakenNext(Undelivered(delivered, front), IdList(front), before, last.id);
      at := if last.id in delivered then before else before + [|front|];
    }
  }

  /** One record more, of this call: which of its ids were handed off although the call came too late. */
  ghost predicate Recorded(s: Scope, t: Scope, call: InFlight, accepted: bool, at: seq<nat>) {
    && |t.late| == |s.late| + 1 && s.late <= t.late
    && var r := t.late[|s.late|];
    && r.category == (if accepted then DeliveredStaleTarget else Requeued)
    && r.generation == call.generation && r.version == call.version
    && |r.ids| == |call.events| && (forall i | 0 <= i < |r.ids| :: r.ids[i] == call.events[i].id)
    && TakenAt(r.handedOff, r.ids, at)
    && (forall i | 0 <= i < |r.ids| :: i in at <==> accepted && r.ids[i] !in s.delivered)
    && t.delivered == s.delivered && t.active == s.active
  }

  lemma FinishRecords(core: Scope, call: InFlight, accepted: bool) returns (at: seq<nat>)
    requires accepted ==> call.generation != core.generation
    ensures Recorded(core, Finish(core, call, accepted).0, call, accepted, at)
  {
    at := [];
    if accepted { at := UndeliveredAt(core.delivered, call.events); }
  }

  /** Any other end of a call leaves one record: of an acceptance that came too late, with exactly the ids
      that were not delivered since; or of a rejection, with none. */
  lemma LateExactly(steps: seq<Step>, k: nat) returns (at: seq<nat>)
    requires var s := Run(INITIAL, steps);
             && k < |s.air| && s.air[k].outcome.Some?
             && (s.air[k].outcome.value ==> s.air[k].flight.generation != s.core.generation)
    ensures var s := Run(INITIAL, steps);
            Recorded(s.core, Next(s, DoFinish(k)).core, s.air[k].flight, s.air[k].outcome.value, at)
  {
    var s := Run(INITIAL, steps);
    FinishIs(s, k);
    at := FinishRecords(s.core, s.air[k].flight, s.air[k].outcome.value);
  }

  /** Behind what is pending stand the events neither delivered nor pending, in order, relabelled. */
  ghost predicate PutBack(pending: seq<Event>, delivered: set<string>, version: int, events: seq<Event>,
                          after: seq<Event>, back: seq<Event>, at: seq<nat>)
  {
    && after == pending + back
    && TakenAt(back, Relabelled(events, version), at) && |Relabelled(events, version)| == |events|
    && (forall i | 0 <= i < |events| :: i in at <==> events[i].id !in delivered + Ids(pending))
  }

  lemma {:induction false} RequeuedAt(pending: seq<Event>, delivered: set<string>, version: int, events: seq<Event>)
    returns (back: seq<Event>, at: seq<nat>)
    requires Distinct(events)
    ensures PutBack(pending, delivered, version, events, RequeueAll(pending, delivered, version, events), back, at)
    ensures Ids(pending + back) == Ids(pending) + (Ids(events) - delivered)
  {
    if events == [] {
      back, at := [], [];
      assert pending + back == pending;
    } else {
      var front, last := events[..|events| - 1], events[|events| - 1];
      assert events == front + [last];
      var before, taken := RequeuedAt(pending, delivered, version, front);
      back, at := RequeuedNext(pending, delivered, version, front, last, before, taken);
      RequeueLast(pending, delivered, version, front, last);
    }
  }

  lemma RequeueLast(pending: seq<Event>, delivered: set<string>, version: int, front: seq<Event>, last: Event)
    ensures var before := RequeueAll(pending, delivered, version, front);
            RequeueAll(pending, delivered, version, front + [last]) ==
            if last.id in delivered then before else SetDefault(before, last.(version := version))
  {
    assert (front + [last])[..|front|] == front;
  }

  lemma RequeuedNext(pending: seq<Event>, delivered: set<string>, version: int, front: seq<Event>, last: Event,
                     before: seq<Event>, taken: seq<nat>)
    returns (back: seq<Event>, at: seq<nat>)
    requires PutBack(pending, delivered, version, front, pending + before, before, taken) && last.id !in Ids(front)
    requires Ids(pending + before) == Ids(pending) + (Ids(front) - delivered)
    ensures PutBack(pending, delivered, version, front + [last],
                    if last.id in delivered then pending + before
                    else SetDefault(pending + before, last.(version := version)), back, at)
    ensures Ids(pending + back) == Ids(pending) + (Ids(front + [last]) - delivered)
  {
    assert (front + [last])[..|front|] == front;
    if last.id in delivered + Ids(pending) {
      back, at := before, taken;
      RequeuedSkips(pending, delivered, version, front, last, before, taken);
    } else {
      AppendFacts(pending + before, last.(version := version));
      back, at := before + [last.(version := version)], taken + [|front|];
      RequeuedAdds(pending, delivered, version, front, last, before, taken);
    }
  }

  lemma RequeuedSkips(pending: seq<Event>, delivered: set<string>, version: int, front: seq<Event>, last: Event,
                      back: seq<Event>, at: seq<nat>)
    requires PutBack(pending, delivered, version, front, pending + back, back, at)
    requires last.id in delivered + Ids(pending)
    ensures PutBack(pending, delivered, version, front + [last], pending + back, back, at)
  {
    assert (front + [last])[..|front|] == front;
    TakenNext(back, Relabelled(front, version), at, last.(version := version));
  }

  lemma RequeuedAdds(pending: seq<Event>, delivered: set<string>, version: int, front: seq<Event>, last: Event,
                     back: seq<Event>, at: seq<nat>)
    requires PutBack(pending, delivered, version, front, pending + back, back, at)
    requires last.id !in delivered + Ids(pending)
    ensures var moved := last.(version := version);
            PutBack(pending, delivered, version, front + [last], pending + back + [moved], back + [moved],
                    at + [|front|])
  {
    assert (front + [last])[..|front|] == front;
    TakenNext(back, Relabelled(front, version), at, last.(version := version));
    assert pending + back + [last.(version := version)] == pending + (back + [last.(version := version)]);
  }

  lemma FinishRequeues(core: Scope, call: InFlight, accepted: bool) returns (back: seq<Event>, at: seq<nat>)
    requires core.active.Some? && Distinct(call.events) && (accepted ==> call.generation != core.generation)
    ensures PutBack(core.pending, core.delivered, core.active.value, call.events,
                    Finish(core, call, accepted).0.pending, back, at)
  {
    back, at := RequeuedAt(core.pending, core.delivered, core.active.value, call.events);
  }

  /** A call that was not accepted in time puts its events back under the active version. */
  lemma RequeueExactly(steps: seq<Step>, k: nat) returns (back: seq<Event>, at: seq<nat>)
    requires var s := Run(INITIAL, steps);
             && k < |s.air| && s.air[k].outcome.Some?
             && (s.air[k].outcome.value ==> s.air[k].flight.generation != s.core.generation)
    ensures var s := Run(INITIAL, steps).core;
            s.active.Some? &&
            PutBack(s.pending, s.delivered, s.active.value, Run(INITIAL, steps).air[k].flight.events,
                    Next(Run(INITIAL, steps), DoFinish(k)).core.pending, back, at)
  {
    var s := Run(INITIAL, steps);
    InitialInv();
    RunKeeps(INITIAL, steps);
    OneFlight(s, k);
    FinishIs(s, k);
    back, at := FinishRequeues(s.core, s.air[k].flight, s.air[k].outcome.value);
  }

  lemma OneFlight(s: System, k: nat)
    requires Inv(s) && k < |s.air|
    ensures s.core.active.Some? && Distinct(s.air[k].flight.events)
  {
  }

  /** Relabelling changes the version and nothing else. */
  lemma {:induction false} RelabelledAt(events: seq<Event>, version: int)
    ensures |Relabelled(events, version)| == |events|
    ensures forall i | 0 <= i < |events| :: Relabelled(events, version)[i] == events[i].(version := version)
  {
    if events != [] { RelabelledAt(events[..|events| - 1], version); }
  }
}

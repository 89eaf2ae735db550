/**
 The mutable scope record of the delivery core.  Each method is one critical section of the
 original class; the caller invokes the adapter between `BeginDeliver` (or a method that returns a
 call) and `FinishDeliver`, holding nothing.
 */
module DeliveryCore {
  import opened Prelude
  import opened Delivery

  class ScopeState {
    var active: Option<int>
    var status: Option<string>
    var pending: seq<Event>
    var delivered: set<string>
    var deliveredCount: nat
    var inflight: Option<InFlight>
    var generation: nat
    var late: seq<LateResult>
    var nextSerial: nat

    /** The record as a value. */
    ghost function View(): Scope
      reads this
    {
      Scope(active, status, pending, delivered, deliveredCount, inflight, generation, late, nextSerial)
    }

    constructor ()
      ensures View() == EMPTY
    {
      active, status, pending := None, None, [];
      delivered, deliveredCount, inflight := {}, 0, None;
      generation, late, nextSerial := 0, [], 0;
    }

    method BeginDeliver() returns (call: Option<InFlight>)
      modifies this
      ensures (View(), call) == Begin(old(View()))
    {
      if active.None? || status.None? || status.value !in ELIGIBLE_STATES {
        return None;
      }
      if pending == [] || inflight.Some? {
        return None;
      }
      call := Some(InFlight(nextSerial, active.value, generation, pending));
      inflight, nextSerial := call, nextSerial + 1;
    }

    /** The accepted batch leaves `pending` and enters the ledger of this generation. */
    method Settle(events: seq<Event>)
      modifies `pending, `delivered, `deliveredCount
      ensures pending == PopAll(old(pending), events)
      ensures delivered == old(delivered) + Ids(events)
      ensures deliveredCount == old(deliveredCount) + |events|
    {
      for i := 0 to |events|
        invariant pending == PopAll(old(pending), events[..i])
        invariant delivered == old(delivered) + Ids(events[..i])
        invariant deliveredCount == old(deliveredCount)
      {
        assert events[..i + 1][..i] == events[..i];
        pending := Pop(pending, events[i].id);
        delivered := delivered + {events[i].id};
      }
      assert events[..|events|] == events;
      deliveredCount := deliveredCount + |events|;
    }

    /** Put a batch back, except what this generation has delivered meanwhile. */
    method Requeue(events: seq<Event>, version: int) returns (handedOff: seq<string>)
      modifies `pending
      ensures pending == RequeueAll(old(pending), delivered, version, events)
      ensures handedOff == Undelivered(delivered, events)
    {
      handedOff := [];
      for i := 0 to |events|
        invariant pending == RequeueAll(old(pending), delivered, version, events[..i])
        invariant handedOff == Undelivered(delivered, events[..i])
      {
        assert events[..i + 1][..i] == events[..i];
        if events[i].id !in delivered {
          pending := SetDefault(pending, events[i].(version := version));
          handedOff := handedOff + [events[i].id];
        }
      }
      assert events[..|events|] == events;
    }

    method FinishDeliver(call: InFlight, accepted: bool) returns (category: Category)
      modifies this
      ensures (View(), category) == Finish(old(View()), call, accepted)
    {
      if inflight.Some? && inflight.value.serial == call.serial {
        inflight := None;
      }
      if accepted && generation == call.generation {
        Settle(call.events);
        return Delivered;
      }
      var handedOff := Requeue(call.events, if active.Some? then active.value else call.version);
      category := if accepted then DeliveredStaleTarget else Requeued;
      late := late + [LateResult(category, call.generation, call.version, IdList(call.events),
                                 if accepted then handedOff else [])];
    }

    method SetActiveBinding(version: int) returns (cleared: seq<Event>, call: Option<InFlight>)
      modifies this
      ensures (View(), cleared, call) == Bind(old(View()), version)
    {
      if active == Some(version) {
        return [], None;
      }
      active, generation := Some(version), generation + 1;
      cleared := pending;
      pending, delivered, deliveredCount := [], {}, 0;
      call := BeginDeliver();
    }

    method SetTargetStatus(newStatus: string) returns (call: Option<InFlight>)
      modifies this
      ensures (View(), call) == SetStatus(old(View()), newStatus)
    {
      status := Some(newStatus);
      call := BeginDeliver();
    }

    method IngestEvent(event: Event) returns (intake: Intake, call: Option<InFlight>)
      modifies this
      ensures (View(), intake, call) == Ingest(old(View()), event)
    {
      if active != Some(event.version) {
        return Stale, None;
      }
      if event.id in delivered {
        return Duplicate, None;
      }
      var existing := Lookup(pending, event.id);
      if existing.Some? {
        if event.created >= existing.value.created {
          pending := Replace(pending, event);
        }
        return Duplicate, None;
      }
      pending := pending + [event];
      call := BeginDeliver();
      intake := Queued;
    }

    method Flush() returns (call: Option<InFlight>)
      modifies this
      ensures (View(), call) == Begin(old(View()))
    {
      call := BeginDeliver();
    }
  }
}

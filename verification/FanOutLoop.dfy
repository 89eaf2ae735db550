/**
 One call of the fan-out, event by event: the marker, the ingest with the delivery it may start, the
 proof, the transport, its note and the mark.  Alone it is a run of the steps of `FanOut`.
 */
module FanOutLoop {
  import opened Prelude
  import opened ReceiptKeys
  import opened Delivery
  import opened DeliveryCore
  import opened ProofAdapter

  // ---------------------------------------------------------------- transport, note and mark

  /** What the sending half changes; `used` counts outcomes as in `Adapter`. */
  datatype Progress = Progress(fanned: set<string>, noted: set<string>, transports: seq<string>, count: nat, used: nat)

  /** An event with prompt evidence. */
  function Send(p: Progress, id: string, given: bool, oracle: nat -> bool): Progress {
    if !given || id in p.noted then
      var marked := oracle(p.used);
      p.(fanned := if marked then p.fanned + {id} else p.fanned, count := p.count + if marked then 1 else 0,
         used := p.used + 1)
    else if !oracle(p.used) then p.(used := p.used + 1)
    else
      var noted := if oracle(p.used + 1) then p.noted + {id} else p.noted;
      var marked := oracle(p.used + 2);
      Progress(if marked then p.fanned + {id} else p.fanned, noted, p.transports + [id],
               p.count + if marked then 1 else 0, p.used + 3)
  }

  // ---------------------------------------------------------------- prompt evidence

  /** Core, adapter between two deliveries, and the sending half; `calls` counts the adapter's outcomes. */
  datatype Desk = Desk(core: Scope, box: Box, calls: nat, progress: Progress)

  function Resting(b: Box): Box {
    b.(batch := [], targets := [], phase := Idle)
  }

  /** The marker is read; without one the event is ingested.  Says whether there is evidence then. */
  function Prompt(d: Desk, e: Event, calls: nat -> bool): (Desk, bool) {
    if IsPrompted(d.box.ledger, ControlKey(e.id)) then (d, true)
    else
      var (next, _, call) := Ingest(d.core, e);
      if call.None? then (d.(core := next), e.id in d.box.proof)
      else
        var (b, used) := Drive(d.box.(batch := call.value.events, targets := [], phase := Entered), calls, d.calls);
        var (core, category) := Finish(next, call.value, b.phase == Returned(true));
        (d.(core := core, box := Resting(b), calls := used), category == Delivered || e.id in b.proof)
  }

  function FanEvent(d: Desk, e: Event, given: bool, calls: nat -> bool, oracle: nat -> bool): Desk {
    var (next, evident) := Prompt(d, e, calls);
    if evident then next.(progress := Send(next.progress, e.id, given, oracle)) else next
  }

  function FanAll(d: Desk, events: seq<Event>, given: bool, calls: nat -> bool, oracle: nat -> bool): Desk {
    if events == [] then d
    else FanEvent(FanAll(d, events[..|events| - 1], given, calls, oracle), events[|events| - 1], given, calls, oracle)
  }

  class Fanout {
    const core: ScopeState
    const adapter: Adapter
    /** How transports, notes and marks will turn out. */
    const oracle: nat -> bool
    var used: nat
    var fanned: set<string>
    var noted: set<string>
    var transports: seq<string>

    constructor (calls: nat -> bool, outcomes: nat -> bool)
      ensures fresh(core) && fresh(adapter) && adapter.oracle == calls && oracle == outcomes
      ensures Now(0) == Desk(EMPTY, Box(Ledger({}, {}), map[], {}, [], [], Idle), 0, Progress({}, {}, [], 0, 0))
    {
      core := new ScopeState();
      adapter := new Adapter(calls, Ledger({}, {}));
      oracle, used, fanned, noted, transports := outcomes, 0, {}, {}, [];
    }

    ghost function Sent(count: nat): Progress
      reads this
    {
      Progress(fanned, noted, transports, count, used)
    }

    ghost function Now(count: nat): Desk
      reads this, core, adapter
    {
      Desk(core.View(), adapter.Now([], [], Idle), adapter.used, Sent(count))
    }

    method Outcome() returns (ok: bool)
      modifies `used
      ensures ok == oracle(old(used)) && used == old(used) + 1
    {
      ok := oracle(used);
      used := used + 1;
    }

    /** Whether the event has prompt evidence: its marker, or a delivery that took it along. */
    method PromptEvent(e: Event) returns (evident: bool)
      modifies core, adapter
      ensures (Now(0), evident) == Prompt(old(Now(0)), e, adapter.oracle)
    {
      var key := Key(CONTROL_PROJECT, e.id, 0);
      if key in adapter.delivered || key in adapter.attempts { return true; }
      var delivered := false;
      var _, call := core.IngestEvent(e);
      if call.Some? {
        var accepted := adapter.Deliver(call.value.events);
        var category := core.FinishDeliver(call.value, accepted);
        delivered := category == Delivered;
      }
      return delivered || e.id in adapter.proof;
    }

    method SendEvent(id: string, given: bool) returns (marked: bool)
      modifies this
      ensures Sent(if marked then 1 else 0) == Send(old(Sent(0)), id, given, oracle)
    {
      if given && id !in noted {
        var sent := Outcome();
        if !sent { return false; }
        transports := transports + [id];
        var wrote := Outcome();
        if wrote { noted := noted + {id}; }
      }
      marked := Outcome();
      if marked { fanned := fanned + {id}; }
    }

    /** `events` are the unsent ones in the order of the outbox. */
    method FanoutControlEvents(events: seq<Event>, given: bool) returns (count: nat)
      modifies this, core, adapter
      ensures Now(count) == FanAll(old(Now(0)), events, given, adapter.oracle, oracle)
    {
      count := 0;
      for i := 0 to |events|
        invariant Now(count) == FanAll(old(Now(0)), events[..i], given, adapter.oracle, oracle)
      {
        assert events[..i + 1][..i] == events[..i];
        ghost var before := Now(count);
        PromptCounts(Now(0), count, events[i], adapter.oracle);
        var evident := PromptEvent(events[i]);
        if evident {
          SendCounts(Sent(0), count, events[i].id, given, oracle);
          var marked := SendEvent(events[i].id, given);
          if marked { count := count + 1; }
        }
      }
      assert events[..|events|] == events;
    }
  }

  lemma SendCounts(p: Progress, count: nat, id: string, given: bool, oracle: nat -> bool)
    requires p.count == 0
    ensures var q := Send(p, id, given, oracle);
            Send(p.(count := count), id, given, oracle) == q.(count := count + q.count) && q.count <= 1
  {
  }

  lemma PromptCounts(d: Desk, count: nat, e: Event, calls: nat -> bool)
    ensures var (next, evident) := Prompt(d, e, calls);
            && Prompt(d.(progress := d.progress.(count := count)), e, calls) ==
                 (next.(progress := next.progress.(count := count)), evident)
            && next.progress == d.progress
  {
  }

  // ---------------------------------------------------------------- events of another version

  /** Neither marker nor proof, and not of the version that the core is bound to. */
  predicate Passed(d: Desk, e: Event) {
    d.core.active != Some(e.version) && !IsPrompted(d.box.ledger, ControlKey(e.id)) && e.id !in d.box.proof
  }

  /** A loop over such events, however many, changes nothing: the ingest of each is stale, nobody is
      prompted and nothing is marked. */
  lemma {:induction false} PassedLeavesAll(d: Desk, events: seq<Event>, given: bool, calls: nat -> bool,
                                           oracle: nat -> bool)
    requires forall e | e in events :: Passed(d, e)
    ensures FanAll(d, events, given, calls, oracle) == d
  {
    if events != [] {
      var front, last := events[..|events| - 1], events[|events| - 1];
      assert last in events;
      PassedLeavesAll(d, front, given, calls, oracle);
    }
  }
}

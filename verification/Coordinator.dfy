/**
 The coordinator's own loops over one scope: taking in a message, and announcing the active binding.

 The adapter runs synchronously inside each ingest; `oracle` fixes what it answers, `used` counts.
 */
module Coordinator {
  import opened Prelude
  import opened ReceiptKeys
  import opened Delivery
  import opened DeliveryCore
  import opened ProofAdapter
  import D = DeliveryRuns
  import W = Wiring

  // ---------------------------------------------------------------- one ingest with its delivery

  function Offer(core: Scope, e: Event, oracle: nat -> bool, used: nat): (Scope, nat) {
    var (next, _, call) := Ingest(core, e);
    if call.None? then (next, used) else (Finish(next, call.value, oracle(used)).0, used + 1)
  }

  /** The cleared events of a switch, offered again under the new version. */
  function OfferAll(core: Scope, events: seq<Event>, version: int, oracle: nat -> bool, used: nat): (Scope, nat) {
    if events == [] then (core, used)
    else
      var (c, u) := OfferAll(core, events[..|events| - 1], version, oracle, used);
      Offer(c, events[|events| - 1].(version := version), oracle, u)
  }

  function Announce(core: Scope, version: int, oracle: nat -> bool, used: nat): (Scope, nat) {
    var (next, cleared, _) := Bind(core, version);
    OfferAll(next, cleared, version, oracle, used)
  }

  datatype Outcome = Skipped | DuplicateMessage | StaleMessage | Ingested

  /** A message has a positive id; 0 is read as no id. */
  predicate HasId(summary: Summary) {
    summary.messageId.Some? && summary.messageId.value >= 1
  }

  /** The message was looked at before, its receipt bears a marker, or it is claimed or processed. */
  predicate Known(seen: set<int>, ledger: Ledger, summary: Summary, taken: bool)
    requires HasId(summary)
  {
    var id := summary.messageId.value;
    var key := Key(summary.projectKey, summary.mailName, id);
    id in seen || key in ledger.attempts || key in ledger.delivered || taken
  }

  /** An event of another version than the active one is stale; one that is pending or delivered is a
      duplicate; every other one is queued. */
  lemma IntakeExactly(core: Scope, e: Event)
    ensures var r := Ingest(core, e).1;
            && (r == Stale <==> core.active != Some(e.version))
            && (r == Duplicate <==> core.active == Some(e.version) && e.id in core.delivered + Ids(core.pending))
            && (r == Queued <==> core.active == Some(e.version) && e.id !in core.delivered + Ids(core.pending))
  {
  }

  class Coordinator {
    const core: ScopeState
    const oracle: nat -> bool
    var used: nat
    var seen: set<int>
    /** The markers as this process reads them. */
    var ledger: Ledger

    constructor (outcomes: nat -> bool, markers: Ledger)
      ensures fresh(core) && core.View() == EMPTY && oracle == outcomes && used == 0 && seen == {} && ledger == markers
    {
      core := new ScopeState();
      oracle, used, seen, ledger := outcomes, 0, {}, markers;
    }

    method OfferEvent(e: Event) returns (intake: Intake)
      modifies core, `used
      ensures (core.View(), used) == Offer(old(core.View()), e, oracle, old(used))
      ensures intake == Ingest(old(core.View()), e).1
    {
      var call;
      intake, call := core.IngestEvent(e);
      if call.Some? {
        var accepted := oracle(used);
        used := used + 1;
        var _ := core.FinishDeliver(call.value, accepted);
      }
    }

    method IngestMessage(version: int, summary: Summary, created: real, taken: bool) returns (r: Outcome)
      modifies core, `used, `seen
      ensures HasId(summary) && !Known(old(seen), ledger, summary, taken) ==>
                (core.View(), used) ==
                Offer(old(core.View()), W.MailEvent(version, summary, created), oracle, old(used))
      ensures !HasId(summary) || Known(old(seen), ledger, summary, taken) ==>
                core.View() == old(core.View()) && used == old(used)
      ensures r == Skipped <==> !HasId(summary)
      ensures HasId(summary) ==>
                var again, st, id := Known(old(seen), ledger, summary, taken), old(core.View()),
                                     MailId(summary.messageId.value);
                && (r == StaleMessage <==> !again && st.active != Some(version))
                && (r == DuplicateMessage <==>
                      again || (st.active == Some(version) && id in st.delivered + Ids(st.pending)))
      ensures seen == if r == Skipped then old(seen) else old(seen) + {summary.messageId.value}
    {
      if summary.messageId.None? || summary.messageId.value <= 0 { return Skipped; }
      var id := summary.messageId.value;
      if id in seen { return DuplicateMessage; }
      seen := seen + {id};
      var key := Key(summary.projectKey, summary.mailName, id);
      if key in ledger.delivered || key in ledger.attempts { return DuplicateMessage; }
      if taken { return DuplicateMessage; }
      IntakeExactly(core.View(), W.MailEvent(version, summary, created));
      var intake := OfferEvent(W.MailEvent(version, summary, created));
      if intake == Stale { return StaleMessage; }
      if intake == Duplicate { return DuplicateMessage; }
      return Ingested;
    }

    method SyncBindings(version: int)
      modifies core, `used
      ensures (core.View(), used) == Announce(old(core.View()), version, oracle, old(used))
    {
      var cleared, call := core.SetActiveBinding(version);
      assert call.None?;
      ghost var bound, start := core.View(), used;
      for i := 0 to |cleared|
        invariant (core.View(), used) == OfferAll(bound, cleared[..i], version, oracle, start)
      {
        assert cleared[..i + 1][..i] == cleared[..i];
        var _ := OfferEvent(cleared[i].(version := version));
      }
      assert cleared[..|cleared|] == cleared;
    }
  }

  // ---------------------------------------------------------------- the loop among all other threads

  lemma Launches(s: D.System, e: Event)
    requires D.Inv(s) && Ingest(s.core, e).2.Some?
    ensures D.Next(s, D.DoIngest(e)).air == [D.Call(Ingest(s.core, e).2.value, None)]
  {
    assert s.air == [];
  }

  lemma ReturnsAndFinishes(t: D.System, call: InFlight, accepted: bool)
    requires t.air == [D.Call(call, None)]
    ensures D.Next(D.Next(t, D.AdapterReturns(0, accepted)), D.DoFinish(0)).core == Finish(t.core, call, accepted).0
  {
  }

  lemma QuietOffer(s: D.System, e: Event, oracle: nat -> bool, used: nat) returns (steps: seq<D.Step>)
    requires Ingest(s.core, e).2.None?
    ensures steps == [D.DoIngest(e)] && D.Run(s, steps).core == Offer(s.core, e, oracle, used).0
  {
    var none: seq<D.Step> := [];
    steps := none + [D.DoIngest(e)];
    RunAppend(s, none, D.DoIngest(e));
  }

  /** The core after the ingest, with the call it launched on its way. */
  lemma Launched(s: D.System, e: Event) returns (t: D.System, call: InFlight)
    requires D.Inv(s) && Ingest(s.core, e).2.Some?
    ensures t == D.Next(s, D.DoIngest(e)) && call == Ingest(s.core, e).2.value
    ensures t.core == Ingest(s.core, e).0 && t.air == [D.Call(call, None)]
  {
    t, call := D.Next(s, D.DoIngest(e)), Ingest(s.core, e).2.value;
    Launches(s, e);
  }

  lemma ThreeSteps(s: D.System, a: D.Step, b: D.Step, c: D.Step)
    ensures D.Run(s, [a, b, c]) == D.Next(D.Next(D.Next(s, a), b), c)
  {
    var none: seq<D.Step> := [];
    RunAppend(s, none, a);
    RunAppend(s, [a], b);
    RunAppend(s, [a, b], c);
    assert none + [a] == [a] && [a] + [b] == [a, b] && [a, b] + [c] == [a, b, c];
  }

  lemma LoudOffer(s: D.System, e: Event, oracle: nat -> bool, used: nat) returns (steps: seq<D.Step>)
    requires D.Inv(s) && Ingest(s.core, e).2.Some?
    ensures steps == [D.DoIngest(e), D.AdapterReturns(0, oracle(used)), D.DoFinish(0)]
    ensures D.Run(s, steps).core == Offer(s.core, e, oracle, used).0
  {
    steps := [D.DoIngest(e), D.AdapterReturns(0, oracle(used)), D.DoFinish(0)];
    ThreeSteps(s, D.DoIngest(e), D.AdapterReturns(0, oracle(used)), D.DoFinish(0));
    var t, call := Launched(s, e);
    ReturnsAndFinishes(t, call, oracle(used));
  }

  /** One offer is a row of steps of the delivery core that ends with no call of its own under way. */
  lemma OfferIsSteps(s: D.System, e: Event, oracle: nat -> bool, used: nat) returns (steps: seq<D.Step>)
    requires D.Inv(s)
    ensures D.Run(s, steps).core == Offer(s.core, e, oracle, used).0
    ensures D.DoIngest(e) in steps && forall step | step in steps :: !step.DoBind?
  {
    if Ingest(s.core, e).2.None? {
      steps := QuietOffer(s, e, oracle, used);
    } else {
      steps := LoudOffer(s, e, oracle, used);
    }
    assert steps[0] == D.DoIngest(e);
  }

  lemma RunAppend(s: D.System, steps: seq<D.Step>, step: D.Step)
    ensures D.Run(s, steps + [step]) == D.Next(D.Run(s, steps), step)
  {
    assert (steps + [step])[..|steps|] == steps;
  }

  lemma {:induction false} OfferAllIsSteps(s: D.System, events: seq<Event>, version: int, oracle: nat -> bool,
                                           used: nat)
    returns (steps: seq<D.Step>)
    requires D.Inv(s)
    ensures D.Run(s, steps).core == OfferAll(s.core, events, version, oracle, used).0
    ensures forall step | step in steps :: !step.DoBind?
    ensures forall e | e in events :: D.DoIngest(e.(version := version)) in steps
  {
    if events == [] {
      steps := [];
    } else {
      var front, last := events[..|events| - 1], events[|events| - 1];
      var before := OfferAllIsSteps(s, front, version, oracle, used);
      D.RunKeeps(s, before);
      var here := OfferIsSteps(D.Run(s, before), last.(version := version), oracle,
                               OfferAll(s.core, front, version, oracle, used).1);
      D.RunConcat(s, before, here);
      steps := before + here;
      assert forall e :: e in events <==> e in front || e == last;
    }
  }

  /** However the adapter answers during the loop: everything that was pending before the switch is
      pending or delivered under the new binding when `SyncBindings` returns. */
  lemma SyncKeepsEverything(before: seq<D.Step>, version: int, oracle: nat -> bool, used: nat)
    requires D.Run(D.INITIAL, before).core.active != Some(version)
    ensures var s, t := D.Run(D.INITIAL, before).core, Announce(D.Run(D.INITIAL, before).core, version, oracle, used).0;
            && Ids(s.pending) <= Ids(t.pending) + t.delivered
            && t.active == Some(version) && t.generation == s.generation + 1
  {
    var s := D.Run(D.INITIAL, before);
    D.SwitchHandsOver(before, version);
    var b := before + [D.DoBind(version)];
    RunAppend(D.INITIAL, before, D.DoBind(version));
    D.InitialInv();
    D.RunKeeps(D.INITIAL, b);
    var u := D.Run(D.INITIAL, b);
    var during := OfferAllIsSteps(u, s.core.pending, version, oracle, used);
    D.RunConcat(D.INITIAL, b, during);
    D.SyncLosesNothing(before, version, during);
  }
}

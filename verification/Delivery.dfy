/**
 The deferred delivery core of one scope, as values and atomic steps.

 Each step is one lock section of `DeferredDeliveryCore`; the adapter runs between two of them,
 outside the lock, and may return anything at any time.  `DeliveryCore.dfy` has the mutable object
 whose methods perform these sections in place.
 */
module Delivery {
  import opened Prelude

  /** Mail events name their receipt; other entries of the dict are `text`. */
  datatype Summary = Summary(projectKey: string, mailName: string, messageId: Option<int>, text: string)

  /** `created` orders two summaries of one event; `version` is the binding the event belongs to. */
  datatype Event = Event(id: string, version: int, summary: Summary, created: real)

  /** `serial` stands for the identity of the Python object (`st.inflight is inflight`). */
  datatype InFlight = InFlight(serial: nat, version: int, generation: nat, events: seq<Event>)

  datatype Category = Delivered | DeliveredStaleTarget | Requeued

  datatype LateResult =
    LateResult(category: Category, generation: nat, version: int, ids: seq<string>, handedOff: seq<string>)

  /** `pending` is an insertion-ordered dict: events in order, one per id. */
  datatype Scope = Scope(
    active: Option<int>,
    status: Option<string>,
    pending: seq<Event>,
    delivered: set<string>,
    deliveredCount: nat,
    inflight: Option<InFlight>,
    generation: nat,
    late: seq<LateResult>,
    nextSerial: nat)

  const EMPTY := Scope(None, None, [], {}, 0, None, 0, [], 0)

  const ELIGIBLE_STATES := {"idle", "done", "ready"}

  predicate Eligible(st: Scope) {
    st.status.Some? && st.status.value in ELIGIBLE_STATES
  }

  // ---------------------------------------------------------------- ordered dict

  function Ids(events: seq<Event>): set<string> {
    if events == [] then {} else Ids(events[..|events| - 1]) + {events[|events| - 1].id}
  }

  function IdList(events: seq<Event>): seq<string> {
    seq(|events|, i requires 0 <= i < |events| => events[i].id)
  }

  ghost predicate Distinct(events: seq<Event>) {
    events == [] ||
    (Distinct(events[..|events| - 1]) && events[|events| - 1].id !in Ids(events[..|events| - 1]))
  }

  /** Every event carries this binding version. */
  ghost predicate Labelled(events: seq<Event>, version: Option<int>) {
    events == [] ||
    (Labelled(events[..|events| - 1], version) && Some(events[|events| - 1].version) == version)
  }

  /** `dict.pop(id, None)` */
  function Pop(events: seq<Event>, id: string): seq<Event> {
    if events == [] then []
    else
      var front, last := events[..|events| - 1], events[|events| - 1];
      if last.id == id then front else Pop(front, id) + [last]
  }

  /** `dict.setdefault(e.id, e)` */
  function SetDefault(events: seq<Event>, e: Event): seq<Event> {
    if e.id in Ids(events) then events else events + [e]
  }

  /** `dict[e.id] = e` for a key that is present: its position is kept */
  function Replace(events: seq<Event>, e: Event): seq<Event> {
    if events == [] then []
    else
      var front, last := events[..|events| - 1], events[|events| - 1];
      if last.id == e.id then front + [e] else Replace(front, e) + [last]
  }

  /** `dict.get(id)` */
  function Lookup(events: seq<Event>, id: string): (r: Option<Event>)
    ensures r.Some? <==> id in Ids(events)
    ensures r.Some? ==> r.value in events && r.value.id == id
  {
    if events == [] then None
    else if events[|events| - 1].id == id then Some(events[|events| - 1])
    else Lookup(events[..|events| - 1], id)
  }

  function PopAll(pending: seq<Event>, events: seq<Event>): seq<Event> {
    if events == [] then pending
    else Pop(PopAll(pending, events[..|events| - 1]), events[|events| - 1].id)
  }

  /** Put back what is not delivered yet, relabelled with the active binding version. */
  function RequeueAll(pending: seq<Event>, delivered: set<string>, version: int, events: seq<Event>): seq<Event> {
    if events == [] then pending
    else
      var e := events[|events| - 1];
      var rest := RequeueAll(pending, delivered, version, events[..|events| - 1]);
      if e.id in delivered then rest else SetDefault(rest, e.(version := version))
  }

  /** The cleared events of a switch as they are offered under the new version. */
  function Relabelled(events: seq<Event>, version: int): seq<Event> {
    if events == [] then []
    else Relabelled(events[..|events| - 1], version) + [events[|events| - 1].(version := version)]
  }

  /** The ids of `events` outside `delivered`, in order. */
  function Undelivered(delivered: set<string>, events: seq<Event>): seq<string> {
    if events == [] then []
    else
      var e := events[|events| - 1];
      var rest := Undelivered(delivered, events[..|events| - 1]);
      if e.id in delivered then rest else rest + [e.id]
  }

  // ---------------------------------------------------------------- lock sections

  function Begin(st: Scope): (Scope, Option<InFlight>) {
    if st.active.None? || !Eligible(st) then (st, None)
    else if st.pending == [] || st.inflight.Some? then (st, None)
    else
      var call := InFlight(st.nextSerial, st.active.value, st.generation, st.pending);
      (st.(inflight := Some(call), nextSerial := st.nextSerial + 1), Some(call))
  }

  function Released(st: Scope, call: InFlight): Scope {
    if st.inflight.Some? && st.inflight.value.serial == call.serial then st.(inflight := None) else st
  }

  function ActiveOr(st: Scope, default: int): int {
    if st.active.Some? then st.active.value else default
  }

  function Finish(st: Scope, call: InFlight, accepted: bool): (Scope, Category) {
    var st := Released(st, call);
    var version := ActiveOr(st, call.version);
    if accepted && st.generation == call.generation then
      (st.(pending := PopAll(st.pending, call.events),
           delivered := st.delivered + Ids(call.events),
           deliveredCount := st.deliveredCount + |call.events|), Delivered)
    else
      var handed := if accepted then Undelivered(st.delivered, call.events) else [];
      var category := if accepted then DeliveredStaleTarget else Requeued;
      (st.(pending := RequeueAll(st.pending, st.delivered, version, call.events),
           late := st.late + [LateResult(category, call.generation, call.version, IdList(call.events), handed)]),
       category)
  }

  /** Returns the cleared events that are handed to the caller. */
  function Bind(st: Scope, version: int): (Scope, seq<Event>, Option<InFlight>) {
    if st.active == Some(version) then (st, [], None)
    else
      var switched := st.(active := Some(version), generation := st.generation + 1,
                          pending := [], delivered := {}, deliveredCount := 0);
      var (next, call) := Begin(switched);
      (next, st.pending, call)
  }

  function SetStatus(st: Scope, status: string): (Scope, Option<InFlight>) {
    Begin(st.(status := Some(status)))
  }

  datatype Intake = Queued | Duplicate | Stale

  function Ingest(st: Scope, e: Event): (Scope, Intake, Option<InFlight>) {
    if st.active != Some(e.version) then (st, Stale, None)
    else if e.id in st.delivered then (st, Duplicate, None)
    else
      match Lookup(st.pending, e.id)
      case Some(existing) =>
        (if e.created >= existing.created then st.(pending := Replace(st.pending, e)) else st, Duplicate, None)
      case None =>
        var (next, call) := Begin(st.(pending := st.pending + [e]));
        (next, Queued, call)
  }

  // ---------------------------------------------------------------- facts about the ordered dict

  lemma {:induction false} AppendFacts(s: seq<Event>, e: Event)
    ensures Ids(s + [e]) == Ids(s) + {e.id}
    ensures Distinct(s + [e]) <==> Distinct(s) && e.id !in Ids(s)
    ensures forall v :: Labelled(s + [e], v) <==> Labelled(s, v) && Some(e.version) == v
  {
    assert (s + [e])[..|s + [e]| - 1] == s;
  }

  lemma {:induction false} DistinctSize(s: seq<Event>)
    requires Distinct(s)
    ensures |Ids(s)| == |s|
  {
    if s != [] { DistinctSize(s[..|s| - 1]); }
  }

  lemma {:induction false} PopFacts(s: seq<Event>, id: string, version: Option<int>)
    requires Distinct(s) && Labelled(s, version)
    ensures Distinct(Pop(s, id)) && Labelled(Pop(s, id), version)
    ensures Ids(Pop(s, id)) == Ids(s) - {id}
  {
    if s != [] {
      var front, last := s[..|s| - 1], s[|s| - 1];
      if last.id != id {
        PopFacts(front, id, version);
        AppendFacts(Pop(front, id), last);
      }
    }
  }

  lemma {:induction false} ReplaceFacts(s: seq<Event>, e: Event, version: Option<int>)
    requires Distinct(s) && Labelled(s, version) && version == Some(e.version)
    ensures Distinct(Replace(s, e)) && Labelled(Replace(s, e), version)
    ensures Ids(Replace(s, e)) == Ids(s)
  {
    if s != [] {
      var front, last := s[..|s| - 1], s[|s| - 1];
      if last.id == e.id {
        AppendFacts(front, e);
      } else {
        ReplaceFacts(front, e, version);
        AppendFacts(Replace(front, e), last);
      }
    }
  }

  lemma {:induction false} PopAllFacts(pending: seq<Event>, events: seq<Event>, version: Option<int>)
    requires Distinct(pending) && Labelled(pending, version)
    ensures Distinct(PopAll(pending, events)) && Labelled(PopAll(pending, events), version)
    ensures Ids(PopAll(pending, events)) == Ids(pending) - Ids(events)
  {
    if events != [] {
      var front := events[..|events| - 1];
      PopAllFacts(pending, front, version);
      PopFacts(PopAll(pending, front), events[|events| - 1].id, version);
    }
  }

  lemma {:induction false} RequeueAllFacts(pending: seq<Event>, delivered: set<string>, version: int,
                                           events: seq<Event>)
    requires Distinct(pending) && Labelled(pending, Some(version))
    ensures var r := RequeueAll(pending, delivered, version, events);
            && Distinct(r) && Labelled(r, Some(version))
            && Ids(r) == Ids(pending) + (Ids(events) - delivered)
            && pending <= r
  {
    if events != [] {
      var front, e := events[..|events| - 1], events[|events| - 1];
      RequeueAllFacts(pending, delivered, version, front);
      AppendFacts(RequeueAll(pending, delivered, version, front), e.(version := version));
    }
  }

  lemma {:induction false} LabelledMember(s: seq<Event>, version: Option<int>, e: Event)
    requires Labelled(s, version) && e in s
    ensures Some(e.version) == version && e.id in Ids(s)
  {
    if e != s[|s| - 1] { LabelledMember(s[..|s| - 1], version, e); }
  }

  lemma {:induction false} RelabelledMembers(events: seq<Event>, version: int)
    ensures forall x | x in Relabelled(events, version) ::
              x.version == version && x.id in Ids(events) && exists e :: e in events && x == e.(version := version)
    ensures forall e | e in events :: e.(version := version) in Relabelled(events, version)
    ensures Ids(Relabelled(events, version)) == Ids(events)
  {
    if events != [] {
      var front, last := events[..|events| - 1], events[|events| - 1];
      RelabelledMembers(front, version);
      AppendFacts(Relabelled(front, version), last.(version := version));
      forall x | x in Relabelled(events, version) ensures exists e :: e in events && x == e.(version := version) {
        if x in Relabelled(front, version) {
          var e :| e in front && x == e.(version := version);
          assert e in events;
        } else {
          assert last in events;
        }
      }
    }
  }
}

/**
 The proof adapter: durable prompt markers around the wrapped adapter's call.

 A delivery is a chain of micro-steps, one for each write to the receipts and one for the wrapped
 call, so that a crash can fall between any two.  `Adapter.Deliver` below performs the whole chain.
 */
module ProofAdapter {
  import opened Prelude
  import opened Delivery
  import opened ReceiptKeys

  /** The markers on the receipts, which survive a crash. */
  datatype Ledger = Ledger(attempts: set<Key>, delivered: set<Key>)

  predicate IsPrompted(ledger: Ledger, key: Key) {
    key in ledger.attempts || key in ledger.delivered
  }

  function Target(e: Event): Option<Key> {
    if MAIL_PREFIX <= e.id then
      var s := e.summary;
      if s.projectKey == "" || s.mailName == "" || s.messageId.None? then None
      else Some(Key(s.projectKey, s.mailName, s.messageId.value))
    else Some(Key(CONTROL_PROJECT, e.id, 0))
  }

  /** The receipt that carries an event's markers: that of its message, which it may fail to name, or for a
      control event the row named after it. */
  lemma TargetExactly(e: Event)
    ensures if "mail:" <= e.id
            then && (Target(e) == None <==> e.summary.projectKey == "" || e.summary.mailName == ""
                                            || e.summary.messageId == None)
                 && (Target(e).Some? ==>
                       Target(e) == Some(Key(e.summary.projectKey, e.summary.mailName, e.summary.messageId.value)))
            else Target(e) == Some(Key("/b0/control", e.id, 0))
  {
  }

  function Targets(events: seq<Event>): (r: Option<seq<Key>>)
    ensures r.Some? ==> |r.value| == |events| && forall i | 0 <= i < |events| :: Target(events[i]) == Some(r.value[i])
  {
    if events == [] then Some([])
    else
      var front, last := Targets(events[..|events| - 1]), Target(events[|events| - 1]);
      if front.None? || last.None? then None else Some(front.value + [last.value])
  }

  // ---------------------------------------------------------------- micro-steps

  datatype Phase =
    | Idle
    | Entered
    | Recovering(i: nat, j: nat, good: bool)
    | Attempting(n: nat)
    | Calling
    | Clearing(n: nat)
    | Marking(n: nat, good: bool)
    | Returned(accepted: bool)

  /** `pendingMarks` and `proof` are the adapter's own memory; `batch`, `targets` and `phase` belong to
      the delivery under way. */
  datatype Box = Box(
    ledger: Ledger,
    pendingMarks: map<string, seq<Key>>,
    proof: set<string>,
    batch: seq<Event>,
    targets: seq<Key>,
    phase: Phase)

  function Attempted(ledger: Ledger, key: Key, ok: bool): Ledger {
    if ok then ledger.(attempts := ledger.attempts + {key}) else ledger
  }

  function Cleared(ledger: Ledger, key: Key, ok: bool): Ledger {
    if ok then ledger.(attempts := ledger.attempts - {key}) else ledger
  }

  function Marked(ledger: Ledger, key: Key, ok: bool): Ledger {
    if ok then ledger.(delivered := ledger.delivered + {key}) else ledger
  }

  /** Every event awaits only its delivered mark. */
  predicate AllAwaitMarks(pendingMarks: map<string, seq<Key>>, events: seq<Event>) {
    events != [] && forall e | e in events :: e.id in pendingMarks
  }

  function Awaiting(pendingMarks: map<string, seq<Key>>, events: seq<Event>, targets: seq<Key>): map<string, seq<Key>> {
    if events == [] then pendingMarks
    else Awaiting(pendingMarks, events[..|events| - 1], targets)[events[|events| - 1].id := targets]
  }

  /** `ok` is the outcome of the write or of the wrapped call, where the step makes one. */
  function Micro(b: Box, ok: bool): Box {
    match b.phase
    case Idle => b
    case Returned(_) => b
    case Entered =>
      (match Targets(b.batch)
       case None => b.(phase := Returned(false))
       case Some(targets) =>
         b.(targets := targets,
            phase := if AllAwaitMarks(b.pendingMarks, b.batch) then Recovering(0, 0, true) else Attempting(0)))
    case Recovering(i, j, good) =>
      if i >= |b.batch| then b.(phase := Returned(good))
      else
        var id := b.batch[i].id;
        if id !in b.pendingMarks then b.(phase := Returned(false))
        else if j < |b.pendingMarks[id]| then
          b.(ledger := Marked(b.ledger, b.pendingMarks[id][j], ok), phase := Recovering(i, j + 1, good && ok))
        else if good then
          b.(pendingMarks := b.pendingMarks - {id}, proof := b.proof + {id}, phase := Recovering(i + 1, 0, true))
        else b.(phase := Recovering(i + 1, 0, false))
    case Attempting(n) =>
      if n >= |b.targets| then b.(phase := Calling)
      else b.(ledger := Attempted(b.ledger, b.targets[n], ok),
              phase := if ok then Attempting(n + 1) else Returned(false))
    case Calling => b.(phase := if ok then Marking(0, true) else Clearing(0))
    case Clearing(n) =>
      if n >= |b.targets| then b.(phase := Returned(false))
      else b.(ledger := Cleared(b.ledger, b.targets[n], ok), phase := Clearing(n + 1))
    case Marking(n, good) =>
      if n < |b.targets| then b.(ledger := Marked(b.ledger, b.targets[n], ok), phase := Marking(n + 1, good && ok))
      else if good then b.(proof := b.proof + Ids(b.batch), phase := Returned(true))
      else b.(pendingMarks := Awaiting(b.pendingMarks, b.batch, b.targets), phase := Returned(false))
  }

  /** Whether the next micro-step writes or calls. */
  predicate Acts(b: Box) {
    match b.phase
    case Recovering(i, j, _) => i < |b.batch| && b.batch[i].id in b.pendingMarks && j < |b.pendingMarks[b.batch[i].id]|
    case Attempting(n) => n < |b.targets|
    case Calling => true
    case Clearing(n) => n < |b.targets|
    case Marking(n, _) => n < |b.targets|
    case _ => false
  }

  // ---------------------------------------------------------------- a whole delivery

  function Rank(phase: Phase): nat {
    match phase
    case Idle => 0
    case Returned(_) => 0
    case Entered => 5
    case Recovering(_, _, _) => 4
    case Attempting(_) => 3
    case Calling => 2
    case Clearing(_) => 1
    case Marking(_, _) => 1
  }

  function Less(a: int, b: int): nat {
    if a <= b then b - a else 0
  }

  function Remaining(b: Box): (nat, nat) {
    match b.phase
    case Recovering(i, j, _) =>
      (Less(i, |b.batch|),
       if i < |b.batch| && b.batch[i].id in b.pendingMarks then Less(j, |b.pendingMarks[b.batch[i].id]|) else 0)
    case Attempting(n) => (Less(n, |b.targets|), 0)
    case Clearing(n) => (Less(n, |b.targets|), 0)
    case Marking(n, _) => (Less(n, |b.targets|), 0)
    case _ => (0, 0)
  }

  /** All micro-steps of a delivery; `oracle` fixes how the writes and calls turn out, `used` counts
      them. */
  function Drive(b: Box, oracle: nat -> bool, used: nat): (Box, nat)
    decreases Rank(b.phase), Remaining(b).0, Remaining(b).1
  {
    if b.phase.Idle? || b.phase.Returned? then (b, used)
    else Drive(Micro(b, oracle(used)), oracle, if Acts(b) then used + 1 else used)
  }

  /** The keys that the wrapped adapter accepts during a delivery: those of the whole batch or none. */
  function Prompts(b: Box, oracle: nat -> bool, used: nat): (r: seq<Key>)
    ensures Rank(b.phase) <= 1 ==> r == []
    decreases Rank(b.phase), Remaining(b).0, Remaining(b).1
  {
    if b.phase.Idle? || b.phase.Returned? then []
    else if b.phase.Calling? then if oracle(used) then b.targets else []
    else Prompts(Micro(b, oracle(used)), oracle, if Acts(b) then used + 1 else used)
  }

  class Adapter {
    /** How the writes and wrapped calls will turn out. */
    const oracle: nat -> bool
    var used: nat
    var attempts: set<Key>
    var delivered: set<Key>
    var pendingMarks: map<string, seq<Key>>
    var proof: set<string>

    constructor (outcomes: nat -> bool, ledger: Ledger)
      ensures oracle == outcomes && used == 0
      ensures Now([], [], Idle) == Box(ledger, map[], {}, [], [], Idle)
    {
      oracle, used := outcomes, 0;
      attempts, delivered := ledger.attempts, ledger.delivered;
      pendingMarks, proof := map[], {};
    }

    /** This adapter in the middle of a delivery. */
    function Now(batch: seq<Event>, targets: seq<Key>, phase: Phase): Box
      reads this
    {
      Box(Ledger(attempts, delivered), pendingMarks, proof, batch, targets, phase)
    }

    method Outcome() returns (ok: bool)
      modifies `used
      ensures ok == oracle(old(used)) && used == old(used) + 1
    {
      ok := oracle(used);
      used := used + 1;
    }

    method SetAttempt(key: Key) returns (ok: bool)
      modifies `used, `attempts
      ensures ok == oracle(old(used)) && used == old(used) + 1
      ensures attempts == if ok then old(attempts) + {key} else old(attempts)
    {
      ok := Outcome();
      if ok { attempts := attempts + {key}; }
    }

    method ClearAttempt(key: Key) returns (ok: bool)
      modifies `used, `attempts
      ensures ok == oracle(old(used)) && used == old(used) + 1
      ensures attempts == if ok then old(attempts) - {key} else old(attempts)
    {
      ok := Outcome();
      if ok { attempts := attempts - {key}; }
    }

    method SetDelivered(key: Key) returns (ok: bool)
      modifies `used, `delivered
      ensures ok == oracle(old(used)) && used == old(used) + 1
      ensures delivered == if ok then old(delivered) + {key} else old(delivered)
    {
      ok := Outcome();
      if ok { delivered := delivered + {key}; }
    }

    /** The marks of one event; `before` says whether all marks so far were written. */
    method RepairMarks(events: seq<Event>, targets: seq<Key>, i: nat, before: bool) returns (good: bool)
      requires i < |events| && events[i].id in pendingMarks
      modifies `used, `delivered
      ensures Drive(Now(events, targets, Recovering(i, |pendingMarks[events[i].id]|, good)), oracle, used) ==
              Drive(old(Now(events, targets, Recovering(i, 0, before))), oracle, old(used))
    {
      ghost var goal := Drive(Now(events, targets, Recovering(i, 0, before)), oracle, used);
      var marks := pendingMarks[events[i].id];
      good := before;
      for j := 0 to |marks|
        invariant Drive(Now(events, targets, Recovering(i, j, good)), oracle, used) == goal
      {
        var ok := SetDelivered(marks[j]);
        if !ok { good := false; }
      }
    }

    /** One event of the recovery. */
    method RecoverEvent(events: seq<Event>, targets: seq<Key>, i: nat, before: bool) returns (good: bool)
      requires i < |events| && events[i].id in pendingMarks
      modifies `used, `delivered, `pendingMarks, `proof
      ensures Drive(Now(events, targets, Recovering(i + 1, 0, good)), oracle, used) ==
              Drive(old(Now(events, targets, Recovering(i, 0, before))), oracle, old(used))
    {
      good := RepairMarks(events, targets, i, before);
      if good {
        pendingMarks := pendingMarks - {events[i].id};
        proof := proof + {events[i].id};
      }
    }

    /** Only repairs delivered marks; the wrapped adapter is not called. */
    method Recover(events: seq<Event>, targets: seq<Key>) returns (good: bool)
      modifies `used, `delivered, `pendingMarks, `proof
      ensures (Now(events, targets, Returned(good)), used) ==
              Drive(old(Now(events, targets, Recovering(0, 0, true))), oracle, old(used))
    {
      ghost var goal := Drive(Now(events, targets, Recovering(0, 0, true)), oracle, used);
      good := true;
      for i := 0 to |events|
        invariant Drive(Now(events, targets, Recovering(i, 0, good)), oracle, used) == goal
      {
        if events[i].id !in pendingMarks { return false; }
        good := RecoverEvent(events, targets, i, good);
      }
    }

    method WriteAttempts(events: seq<Event>, targets: seq<Key>) returns (good: bool)
      modifies `used, `attempts
      ensures Drive(Now(events, targets, if good then Calling else Returned(false)), oracle, used) ==
              Drive(old(Now(events, targets, Attempting(0))), oracle, old(used))
    {
      ghost var goal := Drive(Now(events, targets, Attempting(0)), oracle, used);
      for n := 0 to |targets|
        invariant Drive(Now(events, targets, Attempting(n)), oracle, used) == goal
      {
        var ok := SetAttempt(targets[n]);
        if !ok { return false; }
      }
      return true;
    }

    method ClearAttempts(events: seq<Event>, targets: seq<Key>)
      modifies `used, `attempts
      ensures (Now(events, targets, Returned(false)), used) ==
              Drive(old(Now(events, targets, Clearing(0))), oracle, old(used))
    {
      ghost var goal := Drive(Now(events, targets, Clearing(0)), oracle, used);
      for n := 0 to |targets|
        invariant Drive(Now(events, targets, Clearing(n)), oracle, used) == goal
      {
        var _ := ClearAttempt(targets[n]);
      }
    }

    method MarkDelivered(events: seq<Event>, targets: seq<Key>) returns (good: bool)
      modifies `used, `delivered, `pendingMarks, `proof
      ensures (Now(events, targets, Returned(good)), used) ==
              Drive(old(Now(events, targets, Marking(0, true))), oracle, old(used))
    {
      ghost var goal := Drive(Now(events, targets, Marking(0, true)), oracle, used);
      good := true;
      for n := 0 to |targets|
        invariant Drive(Now(events, targets, Marking(n, good)), oracle, used) == goal
      {
        var ok := SetDelivered(targets[n]);
        if !ok { good := false; }
      }
      var marks, all := pendingMarks, {};
      for n := 0 to |events|
        invariant marks == Awaiting(pendingMarks, events[..n], targets) && all == Ids(events[..n])
      {
        assert events[..n + 1][..n] == events[..n];
        marks, all := marks[events[n].id := targets], all + {events[n].id};
      }
      assert events[..|events|] == events;
      if good { proof := proof + all; } else { pendingMarks := marks; }
    }

    method Deliver(events: seq<Event>) returns (accepted: bool)
      modifies this
      ensures var (b, u) := Drive(old(Now(events, [], Entered)), oracle, old(used));
              b == Now(events, b.targets, Returned(accepted)) && u == used
    {
      var targets := Targets(events);
      if targets.None? { return false; }
      if AllAwaitMarks(pendingMarks, events) {
        accepted := Recover(events, targets.value);
        return;
      }
      var ready := WriteAttempts(events, targets.value);
      if !ready { return false; }
      var ok := Outcome();
      if !ok {
        ClearAttempts(events, targets.value);
        return false;
      }
      accepted := MarkDelivered(events, targets.value);
    }
  }
}

/**
 What a whole delivery through the proof adapter leaves behind, whichever of its writes fail.

 The recovery of a batch whose delivered marks failed to be written tries every awaited mark once, in
 order; the events before the first one with a failing write are proven, the others keep awaiting, and
 the wrapped adapter is not called.
 */
module WriteFailures {
  import opened Prelude
  import opened ReceiptKeys
  import opened Delivery
  import opened ProofAdapter
  import opened AdapterOutcomes

  /** The marks each event awaits. */
  function MarkLists(b: Box): seq<seq<Key>>
    requires forall e | e in b.batch :: e.id in b.pendingMarks
  {
    seq(|b.batch|, k requires 0 <= k < |b.batch| => b.pendingMarks[b.batch[k].id])
  }

  /** All marks from position `i` on, in the order in which they are written. */
  function Owed(marks: seq<seq<Key>>, i: nat): seq<Key>
    decreases |marks| - i
  {
    if i >= |marks| then [] else marks[i] + Owed(marks, i + 1)
  }

  /** The number of writes of the events from `i` up to `l`. */
  function Before(marks: seq<seq<Key>>, i: nat, l: nat): nat
    requires l <= |marks|
  {
    if l <= i then 0 else Before(marks, i, l - 1) + |marks[l - 1]|
  }

  lemma {:induction false} BeforeFirst(marks: seq<seq<Key>>, i: nat, l: nat)
    requires i < l <= |marks|
    ensures Before(marks, i, l) == |marks[i]| + Before(marks, i + 1, l)
  {
    if i + 1 < l { BeforeFirst(marks, i, l - 1); }
  }

  /** The marks whose write succeeds. */
  ghost function Written(marks: seq<Key>, oracle: nat -> bool, used: nat): set<Key> {
    set n | 0 <= n < |marks| && oracle(used + n) :: marks[n]
  }

  lemma WrittenJoin(a: seq<Key>, b: seq<Key>, oracle: nat -> bool, used: nat)
    ensures Written(a + b, oracle, used) == Written(a, oracle, used) + Written(b, oracle, used + |a|)
  {
    var c := a + b;
    forall key | key in Written(a, oracle, used) ensures key in Written(c, oracle, used) {
      var n :| 0 <= n < |a| && oracle(used + n) && a[n] == key;
      assert c[n] == key;
    }
    forall key | key in Written(b, oracle, used + |a|) ensures key in Written(c, oracle, used) {
      var n :| 0 <= n < |b| && oracle(used + |a| + n) && b[n] == key;
      assert c[|a| + n] == key && oracle(used + (|a| + n));
    }
    forall key | key in Written(c, oracle, used)
      ensures key in Written(a, oracle, used) + Written(b, oracle, used + |a|)
    {
      var n :| 0 <= n < |c| && oracle(used + n) && c[n] == key;
      if n < |a| { assert a[n] == key; } else { assert b[n - |a|] == key && oracle(used + |a| + (n - |a|)); }
    }
  }

  lemma SucceedFirst(oracle: nat -> bool, used: nat, n: nat)
    requires n > 0
    ensures Succeed(oracle, used, n) <==> oracle(used) && Succeed(oracle, used + 1, n - 1)
  {
    if oracle(used) && Succeed(oracle, used + 1, n - 1) {
      forall i | used <= i < used + n ensures oracle(i) { if i > used { assert used + 1 <= i < used + 1 + (n - 1); } }
    }
  }

  // ---------------------------------------------------------------- one event

  /** The marks of one event from `j` on have been tried. */
  ghost function EventTried(b: Box, oracle: nat -> bool, used: nat): Box
    requires b.phase.Recovering? && b.phase.i < |b.batch| && b.batch[b.phase.i].id in b.pendingMarks
    requires b.phase.j <= |b.pendingMarks[b.batch[b.phase.i].id]|
  {
    var id := b.batch[b.phase.i].id;
    var rest := b.pendingMarks[id][b.phase.j..];
    var good := b.phase.good && Succeed(oracle, used, |rest|);
    b.(ledger := Ledger(b.ledger.attempts, b.ledger.delivered + Written(rest, oracle, used)),
       pendingMarks := if good then b.pendingMarks - {id} else b.pendingMarks,
       proof := if good then b.proof + {id} else b.proof,
       phase := Recovering(b.phase.i + 1, 0, good))
  }

  lemma {:induction false} EventRecovers(b: Box, oracle: nat -> bool, used: nat)
    requires b.phase.Recovering? && b.phase.i < |b.batch| && b.batch[b.phase.i].id in b.pendingMarks
    requires b.phase.j <= |b.pendingMarks[b.batch[b.phase.i].id]|
    ensures Drive(b, oracle, used) ==
            Drive(EventTried(b, oracle, used), oracle, used + |b.pendingMarks[b.batch[b.phase.i].id]| - b.phase.j)
    decreases |b.pendingMarks[b.batch[b.phase.i].id]| - b.phase.j
  {
    var marks, j := b.pendingMarks[b.batch[b.phase.i].id], b.phase.j;
    if j < |marks| {
      MarkTried(b, oracle, used);
      EventRecovers(Micro(b, oracle(used)), oracle, used + 1);
    } else {
      AllTried(b, oracle, used);
    }
  }

  lemma MarkTried(b: Box, oracle: nat -> bool, used: nat)
    requires b.phase.Recovering? && b.phase.i < |b.batch| && b.batch[b.phase.i].id in b.pendingMarks
    requires b.phase.j < |b.pendingMarks[b.batch[b.phase.i].id]|
    ensures var c := Micro(b, oracle(used));
            && c.phase.Recovering? && c.phase.i == b.phase.i && c.phase.j == b.phase.j + 1
            && c.batch == b.batch && c.pendingMarks == b.pendingMarks
            && EventTried(c, oracle, used + 1) == EventTried(b, oracle, used)
            && Drive(b, oracle, used) == Drive(c, oracle, used + 1)
  {
    MarkTriedIs(b, oracle, used);
  }

  lemma MarkTriedIs(b: Box, oracle: nat -> bool, used: nat)
    requires b.phase.Recovering? && b.phase.i < |b.batch| && b.batch[b.phase.i].id in b.pendingMarks
    requires b.phase.j < |b.pendingMarks[b.batch[b.phase.i].id]|
    ensures var c := b.(ledger := Marked(b.ledger, b.pendingMarks[b.batch[b.phase.i].id][b.phase.j], oracle(used)),
                        phase := Recovering(b.phase.i, b.phase.j + 1, b.phase.good && oracle(used)));
            EventTried(c, oracle, used + 1) == EventTried(b, oracle, used)
  {
    var marks, j := b.pendingMarks[b.batch[b.phase.i].id], b.phase.j;
    assert marks[j..] == [marks[j]] + marks[j + 1..];
    WrittenJoin([marks[j]], marks[j + 1..], oracle, used);
    WrittenOne(marks[j], oracle, used);
    SucceedFirst(oracle, used, |marks| - j);
    assert Marked(b.ledger, marks[j], oracle(used)).delivered + Written(marks[j + 1..], oracle, used + 1) ==
           b.ledger.delivered + Written(marks[j..], oracle, used);
  }

  lemma WrittenOne(key: Key, oracle: nat -> bool, used: nat)
    ensures Written([key], oracle, used) == if oracle(used) then {key} else {}
  {
    if oracle(used) { assert [key][0] == key && oracle(used + 0); }
  }

  lemma AllTried(b: Box, oracle: nat -> bool, used: nat)
    requires b.phase.Recovering? && b.phase.i < |b.batch| && b.batch[b.phase.i].id in b.pendingMarks
    requires b.phase.j == |b.pendingMarks[b.batch[b.phase.i].id]|
    ensures Drive(b, oracle, used) == Drive(EventTried(b, oracle, used), oracle, used)
  {
    var rest := b.pendingMarks[b.batch[b.phase.i].id][b.phase.j..];
    assert rest == [] && Written(rest, oracle, used) == {} && Succeed(oracle, used, 0);
    assert b.ledger == Ledger(b.ledger.attempts, b.ledger.delivered + {});
  }

  // ---------------------------------------------------------------- the whole batch

  /** From position `i` on the ids differ and await these marks. */
  ghost predicate Awaits(b: Box, marks: seq<seq<Key>>, i: nat) {
    && |marks| == |b.batch|
    && (forall k | i <= k < |b.batch| :: b.batch[k].id in b.pendingMarks && b.pendingMarks[b.batch[k].id] == marks[k])
    && (forall k, l | i <= k < l < |b.batch| :: b.batch[k].id != b.batch[l].id)
  }

  /** `k` is the first event from `i` on with a failing write, or the end. */
  ghost predicate FirstFailing(marks: seq<seq<Key>>, oracle: nat -> bool, used: nat, i: nat, k: nat) {
    && i <= k <= |marks|
    && (forall l | i <= l < k :: Succeed(oracle, used + Before(marks, i, l), |marks[l]|))
    && (k < |marks| ==> !Succeed(oracle, used + Before(marks, i, k), |marks[k]|))
  }

  ghost function Failing(marks: seq<seq<Key>>, oracle: nat -> bool, used: nat, i: nat): (k: nat)
    requires i <= |marks|
    ensures i <= k <= |marks|
    decreases |marks| - i
  {
    if i < |marks| && Succeed(oracle, used, |marks[i]|) then Failing(marks, oracle, used + |marks[i]|, i + 1) else i
  }

  lemma {:induction false} FailingIsFirst(marks: seq<seq<Key>>, oracle: nat -> bool, used: nat, i: nat)
    requires i <= |marks|
    ensures FirstFailing(marks, oracle, used, i, Failing(marks, oracle, used, i))
    decreases |marks| - i
  {
    if i < |marks| && Succeed(oracle, used, |marks[i]|) {
      FailingIsFirst(marks, oracle, used + |marks[i]|, i + 1);
      FirstFailingShifts(marks, oracle, used, i, Failing(marks, oracle, used, i));
    }
  }

  lemma FirstFailingShifts(marks: seq<seq<Key>>, oracle: nat -> bool, used: nat, i: nat, k: nat)
    requires i < |marks| && Succeed(oracle, used, |marks[i]|)
    requires FirstFailing(marks, oracle, used + |marks[i]|, i + 1, k)
    ensures FirstFailing(marks, oracle, used, i, k)
  {
    forall l | i <= l < k ensures Succeed(oracle, used + Before(marks, i, l), |marks[l]|) {
      if l > i { BeforeFirst(marks, i, l); }
    }
    BeforeFirst(marks, i, k);
  }

  /** The recovery has ended; the events from `i` up to `k` are proven. */
  ghost function Recovered(b: Box, i: nat, k: nat, written: set<Key>, accepted: bool): Box
    requires i <= k <= |b.batch|
  {
    b.(ledger := Ledger(b.ledger.attempts, b.ledger.delivered + written),
       pendingMarks := b.pendingMarks - Ids(b.batch[i..k]),
       proof := b.proof + Ids(b.batch[i..k]),
       phase := Returned(accepted))
  }

  lemma RecoveredNothing(b: Box, i: nat, accepted: bool)
    requires i <= |b.batch|
    ensures Recovered(b, i, i, {}, accepted) == b.(phase := Returned(accepted))
  {
    assert b.batch[i..i] == [];
    assert b.ledger == Ledger(b.ledger.attempts, b.ledger.delivered + {});
    assert b.pendingMarks - {} == b.pendingMarks;
  }

  lemma {:induction false} IdsSlice(events: seq<Event>, i: nat, k: nat)
    requires i < k <= |events|
    ensures Ids(events[i..k]) == {events[i].id} + Ids(events[i + 1..k])
  {
    assert events[..k][i..] == events[i..k] && events[..k][i + 1..] == events[i + 1..k];
    IdsFrom(events[..k], i);
  }

  lemma SameEnd(b: Box, c: Box, i: nat, first: set<Key>, rest: set<Key>)
    requires i < |b.batch|
    requires c == b.(ledger := Ledger(b.ledger.attempts, b.ledger.delivered + first), phase := c.phase)
    ensures Recovered(c, i + 1, i + 1, rest, false) == Recovered(b, i, i, first + rest, false)
  {
    assert b.batch[i..i] == [] && b.batch[i + 1..i + 1] == [];
    assert b.ledger.delivered + first + rest == b.ledger.delivered + (first + rest);
  }

  lemma LaterEnd(b: Box, c: Box, i: nat, k: nat, first: set<Key>, rest: set<Key>, accepted: bool)
    requires i < k <= |b.batch|
    requires var id := b.batch[i].id;
             c == b.(ledger := Ledger(b.ledger.attempts, b.ledger.delivered + first),
                     pendingMarks := b.pendingMarks - {id}, proof := b.proof + {id}, phase := c.phase)
    ensures Recovered(c, i + 1, k, rest, accepted) == Recovered(b, i, k, first + rest, accepted)
  {
    IdsSlice(b.batch, i, k);
    assert b.ledger.delivered + first + rest == b.ledger.delivered + (first + rest);
    assert b.pendingMarks - {b.batch[i].id} - Ids(b.batch[i + 1..k]) == b.pendingMarks - Ids(b.batch[i..k]);
  }

  /** What a recovery from here on ends with when the events up to `k` are proven. */
  ghost predicate EndsAt(b: Box, marks: seq<seq<Key>>, oracle: nat -> bool, used: nat, k: nat, accepted: bool,
                         end: (Box, nat))
    requires b.phase.Recovering? && b.phase.i <= |b.batch|
  {
    var i := b.phase.i;
    && i <= k <= |b.batch|
    && end == (Recovered(b, i, k, Written(Owed(marks, i), oracle, used), accepted), used + |Owed(marks, i)|)
  }

  lemma EndsNow(b: Box, marks: seq<seq<Key>>, oracle: nat -> bool, used: nat)
    requires b.phase.Recovering? && b.phase.j == 0 && b.phase.i == |b.batch| == |marks|
    ensures EndsAt(b, marks, oracle, used, b.phase.i, b.phase.good, Drive(b, oracle, used))
  {
    RecoveredNothing(b, b.phase.i, b.phase.good);
    assert Written([], oracle, used) == {};
  }

  /** The first event from here on has been tried. */
  ghost predicate EventDone(b: Box, c: Box, marks: seq<seq<Key>>, written: set<Key>, good: bool)
    requires b.phase.Recovering? && b.phase.i < |b.batch|
  {
    var i, id := b.phase.i, b.batch[b.phase.i].id;
    && c == b.(ledger := Ledger(b.ledger.attempts, b.ledger.delivered + written),
               pendingMarks := if good then b.pendingMarks - {id} else b.pendingMarks,
               proof := if good then b.proof + {id} else b.proof,
               phase := Recovering(i + 1, 0, good))
    && Awaits(c, marks, i + 1)
  }

  lemma DoEvent(b: Box, marks: seq<seq<Key>>, oracle: nat -> bool, used: nat) returns (c: Box)
    requires b.phase.Recovering? && b.phase.j == 0 && b.phase.i < |b.batch| && Awaits(b, marks, b.phase.i)
    ensures EventDone(b, c, marks, Written(marks[b.phase.i], oracle, used),
                      b.phase.good && Succeed(oracle, used, |marks[b.phase.i]|))
    ensures Drive(b, oracle, used) == Drive(c, oracle, used + |marks[b.phase.i]|)
  {
    EventRecovers(b, oracle, used);
    c := EventTried(b, oracle, used);
    assert marks[b.phase.i][0..] == marks[b.phase.i];
  }

  /** A failing event proves nothing. */
  lemma EndsSame(b: Box, c: Box, marks: seq<seq<Key>>, oracle: nat -> bool, used: nat, end: (Box, nat))
    requires b.phase.Recovering? && b.phase.i < |b.batch| == |marks|
    requires EventDone(b, c, marks, Written(marks[b.phase.i], oracle, used), false)
    requires EndsAt(c, marks, oracle, used + |marks[b.phase.i]|, b.phase.i + 1, false, end)
    ensures EndsAt(b, marks, oracle, used, b.phase.i, false, end)
  {
    var i := b.phase.i;
    WrittenJoin(marks[i], Owed(marks, i + 1), oracle, used);
    SameEnd(b, c, i, Written(marks[i], oracle, used), Written(Owed(marks, i + 1), oracle, used + |marks[i]|));
  }

  /** An event whose writes succeed is proven. */
  lemma EndsLater(b: Box, c: Box, marks: seq<seq<Key>>, oracle: nat -> bool, used: nat, k: nat, accepted: bool,
                  end: (Box, nat))
    requires b.phase.Recovering? && b.phase.i < |b.batch| == |marks|
    requires EventDone(b, c, marks, Written(marks[b.phase.i], oracle, used), true)
    requires EndsAt(c, marks, oracle, used + |marks[b.phase.i]|, k, accepted, end)
    ensures EndsAt(b, marks, oracle, used, k, accepted, end)
  {
    var i := b.phase.i;
    WrittenJoin(marks[i], Owed(marks, i + 1), oracle, used);
    LaterEnd(b, c, i, k, Written(marks[i], oracle, used), Written(Owed(marks, i + 1), oracle, used + |marks[i]|),
             accepted);
  }

  /** After a failing write nothing more is proven, but the remaining marks are still tried. */
  lemma {:induction false} FailedFrom(b: Box, marks: seq<seq<Key>>, oracle: nat -> bool, used: nat)
    requires b.phase.Recovering? && b.phase.j == 0 && !b.phase.good && b.phase.i <= |b.batch|
    requires Awaits(b, marks, b.phase.i)
    ensures EndsAt(b, marks, oracle, used, b.phase.i, false, Drive(b, oracle, used))
    decreases |b.batch| - b.phase.i
  {
    if b.phase.i < |b.batch| {
      var c := DoEvent(b, marks, oracle, used);
      FailedFrom(c, marks, oracle, used + |marks[b.phase.i]|);
      EndsSame(b, c, marks, oracle, used, Drive(b, oracle, used));
    } else {
      EndsNow(b, marks, oracle, used);
    }
  }

  lemma {:induction false} RecoversFrom(b: Box, marks: seq<seq<Key>>, oracle: nat -> bool, used: nat)
    requires b.phase.Recovering? && b.phase.j == 0 && b.phase.good && b.phase.i <= |b.batch|
    requires Awaits(b, marks, b.phase.i)
    ensures var k := Failing(marks, oracle, used, b.phase.i);
            EndsAt(b, marks, oracle, used, k, k == |b.batch|, Drive(b, oracle, used))
    decreases |b.batch| - b.phase.i, 1
  {
    if b.phase.i == |b.batch| {
      EndsNow(b, marks, oracle, used);
    } else {
      var c := DoEvent(b, marks, oracle, used);
      AfterEvent(b, c, marks, oracle, used, Drive(b, oracle, used));
    }
  }

  lemma {:induction false} AfterEvent(b: Box, c: Box, marks: seq<seq<Key>>, oracle: nat -> bool, used: nat,
                                      end: (Box, nat))
    requires b.phase.Recovering? && b.phase.i < |b.batch| == |marks|
    requires EventDone(b, c, marks, Written(marks[b.phase.i], oracle, used),
                       Succeed(oracle, used, |marks[b.phase.i]|))
    requires end == Drive(c, oracle, used + |marks[b.phase.i]|)
    ensures var k := Failing(marks, oracle, used, b.phase.i); EndsAt(b, marks, oracle, used, k, k == |b.batch|, end)
    decreases |b.batch| - b.phase.i, 0
  {
    var k := Failing(marks, oracle, used, b.phase.i);
    if c.phase.good {
      RecoversFrom(c, marks, oracle, used + |marks[b.phase.i]|);
      EndsLater(b, c, marks, oracle, used, k, k == |b.batch|, end);
    } else {
      FailedFrom(c, marks, oracle, used + |marks[b.phase.i]|);
      EndsSame(b, c, marks, oracle, used, end);
    }
  }

  lemma {:induction false} RecoveryIsSilent(b: Box, oracle: nat -> bool, used: nat)
    requires b.phase.Recovering?
    ensures Prompts(b, oracle, used) == []
    decreases Rank(b.phase), Remaining(b).0, Remaining(b).1
  {
    var c := Micro(b, oracle(used));
    if c.phase.Recovering? { RecoveryIsSilent(c, oracle, if Acts(b) then used + 1 else used); }
  }

  /** The retry of a batch of distinct events that all await marks, whichever writes fail.  Let `k` be the
      first event with a failing write.  Exactly the events before it are proven and await nothing any more;
      the others await what they awaited.  All marks are tried, none of the attempts changes, nobody is
      called, and the batch is accepted only if no write failed. */
  lemma RecoveryExactly(b: Box, oracle: nat -> bool, used: nat) returns (k: nat)
    requires b.phase == Entered && Targets(b.batch).Some? && AllAwaitMarks(b.pendingMarks, b.batch)
    requires forall i, j | 0 <= i < j < |b.batch| :: b.batch[i].id != b.batch[j].id
    ensures FirstFailing(MarkLists(b), oracle, used, 0, k)
    ensures var (c, u) := Drive(b, oracle, used);
            && c.proof == b.proof + Ids(b.batch[..k])
            && c.pendingMarks == b.pendingMarks - Ids(b.batch[..k])
            && c.phase == Returned(k == |b.batch|)
            && c.ledger.attempts == b.ledger.attempts
            && c.ledger.delivered == b.ledger.delivered + Written(Owed(MarkLists(b), 0), oracle, used)
            && u == used + |Owed(MarkLists(b), 0)|
            && Prompts(b, oracle, used) == []
  {
    EntersRecovery(b, oracle, used);
    var c := b.(targets := Targets(b.batch).value, phase := Recovering(0, 0, true));
    forall i | 0 <= i < |b.batch| ensures b.batch[i].id in b.pendingMarks { assert b.batch[i] in b.batch; }
    RecoveryIsSilent(c, oracle, used);
    RecoversFrom(c, MarkLists(b), oracle, used);
    FailingIsFirst(MarkLists(b), oracle, used, 0);
    k := Failing(MarkLists(b), oracle, used, 0);
    assert b.batch[0..k] == b.batch[..k];
  }

  lemma EntersRecovery(b: Box, oracle: nat -> bool, used: nat)
    requires b.phase == Entered && Targets(b.batch).Some? && AllAwaitMarks(b.pendingMarks, b.batch)
    ensures var c := b.(targets := Targets(b.batch).value, phase := Recovering(0, 0, true));
            Drive(b, oracle, used) == Drive(c, oracle, used) && Prompts(b, oracle, used) == Prompts(c, oracle, used)
  {
  }

  // ---------------------------------------------------------------- the retries after it

  /** The same batch comes again. */
  function Again(b: Box, batch: seq<Event>): Box {
    b.(batch := batch, targets := [], phase := Entered)
  }

  /** However many of its writes fail, the retry of a batch that awaits its marks calls nobody. */
  lemma AwaitingIsNotCalled(b: Box, oracle: nat -> bool, used: nat)
    requires b.phase == Entered && forall e | e in b.batch :: e.id in b.pendingMarks
    ensures Prompts(b, oracle, used) == []
  {
    if b.batch == [] {
      NothingToCall(b, oracle, used);
    } else if Targets(b.batch).Some? {
      EntersRecovery(b, oracle, used);
      RecoveryIsSilent(b.(targets := Targets(b.batch).value, phase := Recovering(0, 0, true)), oracle, used);
    }
  }

  lemma PassesOn(b: Box, oracle: nat -> bool, used: nat)
    requires !Acts(b) && !b.phase.Idle? && !b.phase.Returned?
    ensures Prompts(b, oracle, used) == Prompts(Micro(b, oracle(used)), oracle, used)
  {
  }

  lemma NothingToCall(b: Box, oracle: nat -> bool, used: nat)
    requires b.phase == Entered && b.batch == []
    ensures Prompts(b, oracle, used) == []
  {
    PassesOn(b, oracle, used);
    PassesOn(Micro(b, oracle(used)), oracle, used);
  }

  lemma {:induction false} AttemptingCan(b: Box, n: nat, used: nat)
    requires b.phase == Attempting(n) && n <= |b.targets|
    ensures Prompts(b, (_: nat) => true, used) == b.targets
    decreases |b.targets| - n
  {
    if n < |b.targets| { AttemptingCan(Micro(b, true), n + 1, used + 1); }
  }

  /** A delivery that enters now can reach the wrapped adapter. */
  ghost predicate MayCall(b: Box) {
    exists oracle, used :: Prompts(b, oracle, used) != []
  }

  /** The wrapped adapter can be called exactly if some event of the batch awaits no mark. */
  lemma MayCallExactly(b: Box)
    requires b.phase == Entered && b.batch != [] && Targets(b.batch).Some?
    ensures MayCall(b) <==> exists e :: e in b.batch && e.id !in b.pendingMarks
  {
    if AllAwaitMarks(b.pendingMarks, b.batch) {
      forall oracle, used ensures Prompts(b, oracle, used) == [] { AwaitingIsNotCalled(b, oracle, used); }
    } else {
      AttemptingCan(Micro(b, true), 0, 0);
      assert Prompts(b, (_: nat) => true, 0) != [];
    }
  }

  /** A rejected recovery leaves the batch awaiting as a whole exactly when the first event is the one whose
      write failed.  Otherwise the next retry of the same batch can call the wrapped adapter a second time:
      the code takes the recovery path only for a batch that awaits as a whole. */
  lemma NextRetryExactly(b: Box, oracle: nat -> bool, used: nat) returns (k: nat)
    requires b.phase == Entered && Targets(b.batch).Some? && AllAwaitMarks(b.pendingMarks, b.batch)
    requires forall i, j | 0 <= i < j < |b.batch| :: b.batch[i].id != b.batch[j].id
    ensures FirstFailing(MarkLists(b), oracle, used, 0, k)
    ensures MayCall(Again(Drive(b, oracle, used).0, b.batch)) <==> k > 0
  {
    k := RecoveryExactly(b, oracle, used);
    var c := Again(Drive(b, oracle, used).0, b.batch);
    MayCallExactly(c);
    if k == 0 {
      assert b.batch[..0] == [] && c.pendingMarks == b.pendingMarks;
    } else {
      IdsSlice(b.batch, 0, k);
      assert b.batch[0..k] == b.batch[..k];
      assert b.batch[0] in b.batch && b.batch[0].id !in c.pendingMarks;
    }
  }

  const FIRST := Event("x", 1, Summary("", "", None, ""), 0.0)
  const SECOND := Event("y", 1, Summary("", "", None, ""), 0.0)

  /** Two control events that were accepted in one batch and whose marks all failed. */
  const UNMARKED :=
    Box(Ledger({ControlKey("x"), ControlKey("y")}, {}),
        map["x" := [ControlKey("x"), ControlKey("y")], "y" := [ControlKey("x"), ControlKey("y")]],
        {}, [FIRST, SECOND], [], Entered)

  /** Only the third write fails. */
  predicate ThirdFails(n: nat) {
    n != 2
  }

  /** Of the four marks that its recovery tries, only the third write fails: the first event is proven, the call
      is rejected, and the retry of the same two events can prompt both of them again. */
  lemma HalfRecoveryCallsAgain()
    ensures var (c, _) := Drive(UNMARKED, ThirdFails, 0);
            c.phase == Returned(false) && c.proof == {"x"} && MayCall(Again(c, [FIRST, SECOND]))
  {
    HalfTargets();
    var k := RecoveryExactly(UNMARKED, ThirdFails, 0);
    var l := NextRetryExactly(UNMARKED, ThirdFails, 0);
    HalfFails(k);
    HalfFails(l);
    assert UNMARKED.batch[..1] == [FIRST] && [FIRST][..0] == [];
    assert Ids(UNMARKED.batch[..1]) == {"x"} && UNMARKED.proof + {"x"} == {"x"};
  }

  lemma TargetsNext(front: seq<Event>, last: Event)
    requires Targets(front).Some? && Target(last).Some?
    ensures Targets(front + [last]) == Some(Targets(front).value + [Target(last).value])
  {
    assert (front + [last])[..|front|] == front;
  }

  lemma HalfTargets()
    ensures Targets([FIRST, SECOND]) == Some([ControlKey("x"), ControlKey("y")])
  {
    TargetsNext([], FIRST);
    TargetsNext([] + [FIRST], SECOND);
    assert [] + [FIRST] + [SECOND] == [FIRST, SECOND];
    assert [] + [ControlKey("x")] + [ControlKey("y")] == [ControlKey("x"), ControlKey("y")];
  }

  lemma HalfFails(k: nat)
    requires FirstFailing(MarkLists(UNMARKED), ThirdFails, 0, 0, k)
    ensures k == 1
  {
    var marks := MarkLists(UNMARKED);
    assert |marks| == 2 && |marks[0]| == 2 && |marks[1]| == 2;
    assert Before(marks, 0, 0) == 0 && Before(marks, 0, 1) == 2;
    assert Succeed(ThirdFails, 0, 2) && !ThirdFails(2);
  }

  /** The calls of up to `n` deliveries of one batch, which ends with the first one accepted. */
  ghost function RetryPrompts(b: Box, oracle: nat -> bool, used: nat, n: nat): seq<Key>
    decreases n
  {
    if n == 0 then []
    else
      var (c, u) := Drive(b, oracle, used);
      Prompts(b, oracle, used) +
      if c.phase == Returned(true) then [] else RetryPrompts(Again(c, b.batch), oracle, u, n - 1)
  }

  /** One event that awaits its marks is retried any number of times without a call. */
  lemma {:induction false} LoneEventNeverCalled(b: Box, oracle: nat -> bool, used: nat, n: nat)
    requires b.phase == Entered && |b.batch| == 1 && b.batch[0].id in b.pendingMarks && Targets(b.batch).Some?
    ensures RetryPrompts(b, oracle, used, n) == []
    decreases n
  {
    if n > 0 {
      var k := RecoveryExactly(b, oracle, used);
      if k == 0 {
        var (c, u) := Drive(b, oracle, used);
        assert b.batch[..0] == [] && c.pendingMarks == b.pendingMarks;
        LoneEventNeverCalled(Again(c, b.batch), oracle, u, n - 1);
      }
    }
  }

  // ---------------------------------------------------------------- clearing and marking

  lemma WrittenFirst(keys: seq<Key>, n: nat, oracle: nat -> bool, used: nat)
    requires n < |keys|
    ensures Written(keys[n..], oracle, used) ==
            (if oracle(used) then {keys[n]} else {}) + Written(keys[n + 1..], oracle, used + 1)
  {
    assert keys[n..] == [keys[n]] + keys[n + 1..];
    WrittenJoin([keys[n]], keys[n + 1..], oracle, used);
    WrittenOne(keys[n], oracle, used);
  }

  lemma WrittenNone(keys: seq<Key>, oracle: nat -> bool, used: nat)
    ensures Written(keys[|keys|..], oracle, used) == {}
  {
  }

  /** After a rejection every target is tried: exactly those whose clearing succeeds lose their attempt. */
  lemma {:induction false} ClearingExactly(b: Box, oracle: nat -> bool, used: nat)
    requires b.phase.Clearing? && b.phase.n <= |b.targets|
    ensures Drive(b, oracle, used) ==
            (b.(ledger := Ledger(b.ledger.attempts - Written(b.targets[b.phase.n..], oracle, used),
                                 b.ledger.delivered),
                phase := Returned(false)),
             used + |b.targets| - b.phase.n)
    decreases |b.targets| - b.phase.n
  {
    var n := b.phase.n;
    if n < |b.targets| {
      var c := Micro(b, oracle(used));
      ClearingExactly(c, oracle, used + 1);
      WrittenFirst(b.targets, n, oracle, used);
      assert c.ledger.attempts - Written(b.targets[n + 1..], oracle, used + 1) ==
             b.ledger.attempts - Written(b.targets[n..], oracle, used);
    } else {
      WrittenNone(b.targets, oracle, used);
      assert b.ledger == Ledger(b.ledger.attempts - {}, b.ledger.delivered);
    }
  }

  /** Each event of the batch awaits every target of the batch; the others await what they awaited. */
  ghost predicate AwaitsAll(was: map<string, seq<Key>>, events: seq<Event>, targets: seq<Key>,
                            now: map<string, seq<Key>>)
  {
    && now.Keys == was.Keys + Ids(events)
    && forall id | id in now :: now[id] == if id in Ids(events) then targets else was[id]
  }

  lemma {:induction false} AwaitingIs(pendingMarks: map<string, seq<Key>>, events: seq<Event>, targets: seq<Key>)
    ensures AwaitsAll(pendingMarks, events, targets, Awaiting(pendingMarks, events, targets))
  {
    if events != [] { AwaitingIs(pendingMarks, events[..|events| - 1], targets); }
  }

  /** The batch is proven as a whole, or awaits all its marks as a whole. */
  ghost predicate MarkedAs(b: Box, c: Box, all: bool) {
    && c.phase == Returned(all) && c.batch == b.batch && c.targets == b.targets
    && c.proof == (if all then b.proof + Ids(b.batch) else b.proof)
    && if all then c.pendingMarks == b.pendingMarks
       else AwaitsAll(b.pendingMarks, b.batch, b.targets, c.pendingMarks)
  }

  /** After an acceptance every mark is tried, and all have to be written for the batch to be proven. */
  lemma {:induction false} MarkingExactly(b: Box, oracle: nat -> bool, used: nat)
    requires b.phase.Marking? && b.phase.n <= |b.targets|
    ensures var (c, u) := Drive(b, oracle, used);
            && MarkedAs(b, c, b.phase.good && Succeed(oracle, used, |b.targets| - b.phase.n))
            && c.ledger == Ledger(b.ledger.attempts,
                                  b.ledger.delivered + Written(b.targets[b.phase.n..], oracle, used))
            && u == used + |b.targets| - b.phase.n
    decreases |b.targets| - b.phase.n
  {
    var n := b.phase.n;
    if n < |b.targets| {
      var c := Micro(b, oracle(used));
      MarkingExactly(c, oracle, used + 1);
      WrittenFirst(b.targets, n, oracle, used);
      SucceedFirst(oracle, used, |b.targets| - n);
      assert c.ledger.delivered + Written(b.targets[n + 1..], oracle, used + 1) ==
             b.ledger.delivered + Written(b.targets[n..], oracle, used);
    } else {
      AwaitingIs(b.pendingMarks, b.batch, b.targets);
      WrittenNone(b.targets, oracle, used);
      assert b.ledger == Ledger(b.ledger.attempts, b.ledger.delivered + {});
    }
  }

  // ---------------------------------------------------------------- a first delivery

  /** All attempts written. */
  function AllAttempts(b: Box): set<Key> {
    b.ledger.attempts + Elements(b.targets)
  }

  lemma CalledIs(b: Box)
    requires b.phase == Attempting(0)
    ensures Called(b) == b.(ledger := Ledger(AllAttempts(b), b.ledger.delivered), phase := Calling)
  {
    BetweenIs(b.targets, 0, |b.targets|);
    assert Between(b.targets, 0, |b.targets|) == Elements(b.targets);
  }

  lemma {:induction false} CallsAfterAttempts(b: Box, oracle: nat -> bool, used: nat)
    requires b.phase.Attempting? && b.phase.n <= |b.targets| && Succeed(oracle, used, |b.targets| - b.phase.n)
    ensures Prompts(b, oracle, used) == if oracle(used + |b.targets| - b.phase.n) then b.targets else []
    decreases |b.targets| - b.phase.n
  {
    if b.phase.n < |b.targets| {
      AttemptDrives(b, oracle, used);
      CallsAfterAttempts(Micro(b, true), oracle, used + 1);
    }
  }

  /** The wrapped call and what follows it. */
  lemma CallEnds(b: Box, oracle: nat -> bool, used: nat)
    requires b.phase.Calling?
    ensures CallEnd(b, oracle, used, Drive(b, oracle, used))
  {
    assert b.targets[0..] == b.targets;
    if oracle(used) {
      MarkingExactly(Micro(b, true), oracle, used + 1);
    } else {
      ClearingExactly(Micro(b, false), oracle, used + 1);
    }
  }

  ghost predicate CallEnd(b: Box, oracle: nat -> bool, used: nat, end: (Box, nat)) {
    var c := end.0;
    && end.1 == used + 1 + |b.targets|
    && if oracle(used)
       then && MarkedAs(b, c, Succeed(oracle, used + 1, |b.targets|))
            && c.ledger == Ledger(b.ledger.attempts, b.ledger.delivered + Written(b.targets, oracle, used + 1))
       else && c.phase == Returned(false) && c.proof == b.proof && c.pendingMarks == b.pendingMarks
            && c.ledger == Ledger(b.ledger.attempts - Written(b.targets, oracle, used + 1), b.ledger.delivered)
  }

  /** A delivery whose attempts are all written: the whole batch is handed to the wrapped adapter once.  If it
      is refused, exactly the attempts whose clearing succeeds go; if it is accepted, exactly the marks whose
      write succeeds come, and the batch is proven only if all did.  With a failing attempt nobody is called
      (`FailedAttemptStops`). */
  lemma CalledExactly(b: Box, oracle: nat -> bool, used: nat)
    requires b.phase == Attempting(0) && Succeed(oracle, used, |b.targets|)
    ensures var m := |b.targets|;
            var (c, u) := Drive(b, oracle, used);
            && u == used + m + 1 + m
            && Prompts(b, oracle, used) == (if oracle(used + m) then b.targets else [])
            && if oracle(used + m)
               then && MarkedAs(b, c, Succeed(oracle, used + m + 1, m))
                    && c.ledger == Ledger(b.ledger.attempts + Elements(b.targets),
                                          b.ledger.delivered + Written(b.targets, oracle, used + m + 1))
               else && c.phase == Returned(false) && c.proof == b.proof && c.pendingMarks == b.pendingMarks
                    && c.ledger == Ledger(b.ledger.attempts + Elements(b.targets)
                                            - Written(b.targets, oracle, used + m + 1), b.ledger.delivered)
  {
    AttemptsComeFirst(b, oracle, used);
    CallsAfterAttempts(b, oracle, used);
    CallEnds(Called(b), oracle, used + |b.targets|);
    CalledEnds(b, oracle, used, Drive(b, oracle, used));
  }

  lemma CalledEnds(b: Box, oracle: nat -> bool, used: nat, end: (Box, nat))
    requires b.phase == Attempting(0) && CallEnd(Called(b), oracle, used + |b.targets|, end)
    ensures CallEnd(b.(ledger := Ledger(AllAttempts(b), b.ledger.delivered), phase := Calling), oracle,
                    used + |b.targets|, end)
  {
    CalledIs(b);
  }
}

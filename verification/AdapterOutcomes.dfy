/** What a whole delivery through the proof adapter leaves behind, by outcome. */
module AdapterOutcomes {
  import opened ReceiptKeys
  import opened Delivery
  import opened ProofAdapter

  function Elements(keys: seq<Key>): set<Key> {
    set k | k in keys
  }

  lemma ElementsFirst(keys: seq<Key>, n: nat)
    requires n < |keys|
    ensures Elements(keys[n..]) == {keys[n]} + Elements(keys[n + 1..])
  {
    assert keys[n..] == [keys[n]] + keys[n + 1..];
  }

  /** The next `n` writes succeed. */
  ghost predicate Succeed(oracle: nat -> bool, used: nat, n: nat) {
    forall i | used <= i < used + n :: oracle(i)
  }

  /** A rejection whose clearing succeeds leaves no attempt of the batch, so every message of it can be
      prompted again after a restart. */
  lemma {:induction false} RejectedIsCleared(b: Box, oracle: nat -> bool, used: nat)
    requires b.phase.Clearing? && b.phase.n <= |b.targets| && Succeed(oracle, used, |b.targets| - b.phase.n)
    ensures var c := Drive(b, oracle, used).0;
            && c.phase == Returned(false)
            && c.ledger == Ledger(b.ledger.attempts - Elements(b.targets[b.phase.n..]), b.ledger.delivered)
            && c.proof == b.proof && c.pendingMarks == b.pendingMarks
    decreases |b.targets| - b.phase.n
  {
    var n := b.phase.n;
    if n < |b.targets| {
      ElementsFirst(b.targets, n);
      RejectedIsCleared(Micro(b, oracle(used)), oracle, used + 1);
    }
  }

  /** An accepted batch whose marks succeed is marked and proven as a whole. */
  lemma {:induction false} AcceptedIsMarked(b: Box, oracle: nat -> bool, used: nat)
    requires b.phase.Marking? && b.phase.good && b.phase.n <= |b.targets|
             && Succeed(oracle, used, |b.targets| - b.phase.n)
    ensures var c := Drive(b, oracle, used).0;
            && c.phase == Returned(true)
            && c.ledger == Ledger(b.ledger.attempts, b.ledger.delivered + Elements(b.targets[b.phase.n..]))
            && c.proof == b.proof + Ids(b.batch) && c.pendingMarks == b.pendingMarks
    decreases |b.targets| - b.phase.n
  {
    var n := b.phase.n;
    if n < |b.targets| {
      ElementsFirst(b.targets, n);
      AcceptedIsMarked(Micro(b, oracle(used)), oracle, used + 1);
    }
  }

  /** An accepted batch with any failing mark is reported as rejected, proves nothing, and awaits its
      marks as a whole. */
  lemma {:induction false} UnmarkedAwaits(b: Box, oracle: nat -> bool, used: nat)
    requires b.phase.Marking? && b.phase.n <= |b.targets|
    requires !(b.phase.good && Succeed(oracle, used, |b.targets| - b.phase.n))
    ensures var c := Drive(b, oracle, used).0;
            && c.phase == Returned(false) && c.proof == b.proof
            && c.pendingMarks == Awaiting(b.pendingMarks, b.batch, b.targets)
            && c.ledger.attempts == b.ledger.attempts
    decreases |b.targets| - b.phase.n
  {
    var n := b.phase.n;
    if n < |b.targets| {
      if b.phase.good && oracle(used) {
        var i :| used <= i < used + (|b.targets| - n) && !oracle(i);
        assert used + 1 <= i;
      }
      UnmarkedAwaits(Micro(b, oracle(used)), oracle, used + 1);
    }
  }

  /** The targets at the positions from `n` up to `m`. */
  function Between(keys: seq<Key>, n: nat, m: nat): set<Key>
    requires n <= m <= |keys|
    decreases m - n
  {
    if n == m then {} else {keys[n]} + Between(keys, n + 1, m)
  }

  lemma {:induction false} BetweenIs(keys: seq<Key>, n: nat, m: nat)
    requires n <= m <= |keys|
    ensures forall k :: k in Between(keys, n, m) <==> exists j :: n <= j < m && keys[j] == k
    decreases m - n
  {
    if n < m { BetweenIs(keys, n + 1, m); }
  }

  /** All attempts written, just before the wrapped call. */
  function Called(b: Box): Box
    requires b.phase.Attempting? && b.phase.n <= |b.targets|
  {
    b.(ledger := Ledger(b.ledger.attempts + Between(b.targets, b.phase.n, |b.targets|), b.ledger.delivered),
       phase := Calling)
  }

  lemma CalledShifts(b: Box)
    requires b.phase.Attempting? && b.phase.n < |b.targets|
    ensures var c := Micro(b, true);
            c.phase == Attempting(b.phase.n + 1) && c.targets == b.targets && Called(c) == Called(b)
  {
    var n := b.phase.n;
    assert b.ledger.attempts + {b.targets[n]} + Between(b.targets, n + 1, |b.targets|) ==
           b.ledger.attempts + Between(b.targets, n, |b.targets|);
  }

  /** Attempts come first: the wrapped adapter is called with every target marked, */
  lemma {:induction false} AttemptsComeFirst(b: Box, oracle: nat -> bool, used: nat)
    requires b.phase.Attempting? && b.phase.n <= |b.targets| && Succeed(oracle, used, |b.targets| - b.phase.n)
    ensures Drive(b, oracle, used) == Drive(Called(b), oracle, used + |b.targets| - b.phase.n)
    decreases |b.targets| - b.phase.n
  {
    if b.phase.n < |b.targets| {
      var c := AttemptWritten(b, oracle, used);
      AttemptsComeFirst(c, oracle, used + 1);
    } else {
      CalledNow(b, oracle, used);
    }
  }

  lemma AttemptWritten(b: Box, oracle: nat -> bool, used: nat) returns (c: Box)
    requires b.phase.Attempting? && b.phase.n < |b.targets| && oracle(used)
    ensures c.phase == Attempting(b.phase.n + 1) && c.targets == b.targets && Called(c) == Called(b)
    ensures Drive(b, oracle, used) == Drive(c, oracle, used + 1)
  {
    AttemptDrives(b, oracle, used);
    CalledShifts(b);
    c := Micro(b, true);
  }

  lemma CalledNow(b: Box, oracle: nat -> bool, used: nat)
    requires b.phase.Attempting? && b.phase.n == |b.targets|
    ensures Drive(b, oracle, used) == Drive(Called(b), oracle, used)
  {
    AllAttempted(b, oracle(used));
  }

  lemma AllAttempted(b: Box, ok: bool)
    requires b.phase.Attempting? && b.phase.n == |b.targets|
    ensures Micro(b, ok) == Called(b)
  {
    assert b.ledger.attempts + {} == b.ledger.attempts;
  }

  /** The delivery ended by a failing attempt at position `i` from here: the targets before it keep theirs. */
  function StoppedAt(b: Box, i: nat): Box
    requires b.phase.Attempting? && b.phase.n + i <= |b.targets|
  {
    b.(ledger := Ledger(b.ledger.attempts + Between(b.targets, b.phase.n, b.phase.n + i), b.ledger.delivered),
       phase := Returned(false))
  }

  lemma StopShifts(b: Box, i: nat)
    requires b.phase.Attempting? && b.phase.n + i < |b.targets| && i > 0
    ensures var c := Micro(b, true);
            c.phase == Attempting(b.phase.n + 1) && c.targets == b.targets && StoppedAt(c, i - 1) == StoppedAt(b, i)
  {
    var n := b.phase.n;
    assert b.ledger.attempts + {b.targets[n]} + Between(b.targets, n + 1, n + i) ==
           b.ledger.attempts + Between(b.targets, n, n + i);
  }

  /** and not at all once an attempt has failed.  The attempts written before the first failing one stay
      behind, although nobody was called; nothing is proven or marked as delivered. */
  lemma FailedAttemptStops(b: Box, oracle: nat -> bool, used: nat) returns (i: nat)
    requires b.phase.Attempting? && b.phase.n <= |b.targets| && !Succeed(oracle, used, |b.targets| - b.phase.n)
    ensures b.phase.n + i < |b.targets| && Succeed(oracle, used, i) && !oracle(used + i)
    ensures Drive(b, oracle, used) == (StoppedAt(b, i), used + i + 1) && Prompts(b, oracle, used) == []
  {
    i := FirstFailure(oracle, used, |b.targets| - b.phase.n);
    StopsAtFirst(b, oracle, used, i);
  }

  lemma {:induction false} FirstFailure(oracle: nat -> bool, used: nat, n: nat) returns (i: nat)
    requires !Succeed(oracle, used, n)
    ensures i < n && Succeed(oracle, used, i) && !oracle(used + i)
  {
    if Succeed(oracle, used, n - 1) { i := n - 1; } else { i := FirstFailure(oracle, used, n - 1); }
  }

  lemma {:induction false} StopsAtFirst(b: Box, oracle: nat -> bool, used: nat, i: nat)
    requires b.phase.Attempting? && b.phase.n + i < |b.targets| && Succeed(oracle, used, i) && !oracle(used + i)
    ensures Drive(b, oracle, used) == (StoppedAt(b, i), used + i + 1) && Prompts(b, oracle, used) == []
    decreases i
  {
    AttemptDrives(b, oracle, used);
    if i > 0 {
      StopShifts(b, i);
      StopsAtFirst(Micro(b, true), oracle, used + 1, i - 1);
    } else {
      StopsNow(b);
    }
  }

  /** One attempt is written or fails. */
  lemma AttemptDrives(b: Box, oracle: nat -> bool, used: nat)
    requires b.phase.Attempting? && b.phase.n < |b.targets|
    ensures Drive(b, oracle, used) == Drive(Micro(b, oracle(used)), oracle, used + 1)
    ensures Prompts(b, oracle, used) == Prompts(Micro(b, oracle(used)), oracle, used + 1)
    ensures !oracle(used) ==>
              Drive(b, oracle, used) == (Micro(b, false), used + 1) && Prompts(b, oracle, used) == []
  {
  }

  lemma StopsNow(b: Box)
    requires b.phase.Attempting? && b.phase.n < |b.targets|
    ensures Micro(b, false) == StoppedAt(b, 0)
  {
    assert b.ledger.attempts + {} == b.ledger.attempts;
  }

  /** A rejected delivery with succeeding writes changes no marker but attempts of its own batch, which
      are gone. */
  lemma RejectionLeavesNoTrace(b: Box, oracle: nat -> bool, used: nat)
    requires b.phase.Attempting? && b.phase.n == 0
    requires var m := |b.targets|; Succeed(oracle, used, m) && !oracle(used + m) && Succeed(oracle, used + m + 1, m)
    ensures var c := Drive(b, oracle, used).0;
            && c.phase == Returned(false)
            && c.ledger == Ledger(b.ledger.attempts - Elements(b.targets), b.ledger.delivered)
  {
    var m := |b.targets|;
    AttemptsComeFirst(b, oracle, used);
    assert b.targets[0..] == b.targets;
    RejectedIsCleared(Micro(Called(b), false), oracle, used + m + 1);
    BetweenIs(b.targets, 0, m);
    assert Called(b).ledger.attempts - Elements(b.targets) == b.ledger.attempts - Elements(b.targets);
  }

  // ---------------------------------------------------------------- recovery

  ghost predicate AlwaysSucceed(oracle: nat -> bool, used: nat) {
    forall i | used <= i :: oracle(i)
  }

  /** The ids from position `i` on differ and all await their marks. */
  ghost predicate AwaitFrom(b: Box, i: nat) {
    && (forall k | i <= k < |b.batch| :: b.batch[k].id in b.pendingMarks)
    && (forall k, l | i <= k < l < |b.batch| :: b.batch[k].id != b.batch[l].id)
  }

  /** The marks of one event. */
  lemma {:induction false} EventRepaired(b: Box, oracle: nat -> bool, used: nat) returns (next: nat)
    requires b.phase.Recovering? && b.phase.good && b.phase.i < |b.batch| && b.batch[b.phase.i].id in b.pendingMarks
    requires AlwaysSucceed(oracle, used) && b.phase.j <= |b.pendingMarks[b.batch[b.phase.i].id]|
    ensures next >= used
    ensures var id := b.batch[b.phase.i].id;
            Drive(b, oracle, used) ==
            Drive(b.(ledger := Ledger(b.ledger.attempts,
                                      b.ledger.delivered + Elements(b.pendingMarks[id][b.phase.j..])),
                     pendingMarks := b.pendingMarks - {id}, proof := b.proof + {id},
                     phase := Recovering(b.phase.i + 1, 0, true)), oracle, next)
    decreases |b.pendingMarks[b.batch[b.phase.i].id]| - b.phase.j
  {
    var id, j := b.batch[b.phase.i].id, b.phase.j;
    var marks := b.pendingMarks[id];
    if j < |marks| {
      ElementsFirst(marks, j);
      next := EventRepaired(Micro(b, oracle(used)), oracle, used + 1);
      assert b.ledger.delivered + {marks[j]} + Elements(marks[j + 1..]) == b.ledger.delivered + Elements(marks[j..]);
    } else {
      assert Elements(marks[j..]) == {};
      assert b.ledger == Ledger(b.ledger.attempts, b.ledger.delivered + Elements(marks[j..]));
      next := used;
    }
  }

  lemma {:induction false} IdsFrom(events: seq<Event>, i: nat)
    requires i < |events|
    ensures Ids(events[i..]) == {events[i].id} + Ids(events[i + 1..])
    decreases |events|
  {
    var front := events[..|events| - 1];
    if i < |front| {
      IdsFrom(front, i);
      assert events[i..][..|events| - i - 1] == front[i..];
      assert events[i + 1..][..|events| - i - 2] == front[i + 1..];
    } else {
      assert events[i..] == [events[i]] && events[i..][..0] == [] && events[i + 1..] == [];
    }
  }

  /** A retry of a batch that awaits its marks, all writes succeeding, only writes marks: every event of
      it is proven and awaits nothing, no attempt changes, and the wrapped adapter is not called. */
  lemma {:induction false} RecoveryRepairs(b: Box, oracle: nat -> bool, used: nat)
    requires b.phase.Recovering? && b.phase.good && b.phase.j == 0 && b.phase.i <= |b.batch|
    requires AwaitFrom(b, b.phase.i) && AlwaysSucceed(oracle, used)
    ensures var c := Drive(b, oracle, used).0;
            && c.phase == Returned(true)
            && c.proof == b.proof + Ids(b.batch[b.phase.i..])
            && c.pendingMarks == b.pendingMarks - Ids(b.batch[b.phase.i..])
            && c.ledger.attempts == b.ledger.attempts && b.ledger.delivered <= c.ledger.delivered
    decreases |b.batch| - b.phase.i
  {
    var i := b.phase.i;
    if i < |b.batch| {
      var id := b.batch[i].id;
      var next := EventRepaired(b, oracle, used);
      IdsFrom(b.batch, i);
      var mid := b.(ledger := Ledger(b.ledger.attempts, b.ledger.delivered + Elements(b.pendingMarks[id])),
                    pendingMarks := b.pendingMarks - {id}, proof := b.proof + {id},
                    phase := Recovering(i + 1, 0, true));
      assert b.pendingMarks[id][0..] == b.pendingMarks[id];
      RecoveryRepairs(mid, oracle, next);
    }
  }

  // ---------------------------------------------------------------- events without a receipt

  lemma {:induction false} TargetsMissing(events: seq<Event>)
    ensures Targets(events).None? <==> exists e | e in events :: Target(e).None?
  {
    if events != [] {
      var front, last := events[..|events| - 1], events[|events| - 1];
      TargetsMissing(front);
      assert forall e :: e in events <==> e in front || e == last;
    }
  }

  /** One mail event that names no mailbox keeps its whole batch from being delivered, and nothing is
      written. */
  lemma UnaddressedBlocks(b: Box, oracle: nat -> bool, used: nat)
    requires b.phase.Entered? && exists e | e in b.batch :: Target(e).None?
    ensures Drive(b, oracle, used) == (b.(phase := Returned(false)), used)
  {
    TargetsMissing(b.batch);
  }
}

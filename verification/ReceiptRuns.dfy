/** Leases and terminal states over every run of transactions on the receipts table. */
module ReceiptRuns {
  import opened Prelude
  import opened ReceiptKeys
  import opened Receipts

  datatype Event =
    | Granted(key: Key, token: nat)
    | Finished(key: Key, used: Option<nat>)

  /** The table, and a history that nothing in the code depends on. */
  datatype System = System(rows: Table, nextToken: nat, log: seq<Event>)

  const INITIAL := System(map[], 0, [])

  datatype Step =
    | DoClaim(key: Key, claimant: string, now: real, ttl: real, verdict: Verdict, text: string)
    | DoComplete(key: Key, token: Option<nat>, now: real)
    | DoFail(key: Key, reason: string, token: Option<nat>, now: real)
    | DoCheckpoint(key: Key, text: string, token: Option<nat>, now: real)
    | DoDismiss(key: Key, reason: string)
    | DoPause(key: Key, text: string)
    | DoMarker(key: Key, text: string)
    | DoAck(key: Key)
    | DoMaintain(live: set<Key>, now: real)
    | DoObserve(project: string, recipient: string, registry: Registry, messages: seq<Message>)

  function Next(s: System, step: Step): System {
    match step
    case DoClaim(key, claimant, now, ttl, verdict, text) =>
      var (rows, grant) := Claim(s.rows, key, claimant, now, ttl, verdict, text, s.nextToken);
      System(rows, s.nextToken + 1, if grant.Some? then s.log + [Granted(key, grant.value)] else s.log)
    case DoComplete(key, token, now) =>
      var (rows, r) := Complete(s.rows, key, token, now);
      s.(rows := rows, log := if r == Ok(Completed) then s.log + [Finished(key, token)] else s.log)
    case DoFail(key, reason, token, now) => s.(rows := Fail(s.rows, key, reason, token, now).0)
    case DoCheckpoint(key, text, token, now) => s.(rows := Checkpoint(s.rows, key, text, token, now).0)
    case DoDismiss(key, reason) => s.(rows := Dismiss(s.rows, key, reason))
    case DoPause(key, text) => s.(rows := Annotate(s.rows, key, Pending, text))
    case DoMarker(key, text) => s.(rows := Annotate(s.rows, key, Notified, text))
    case DoAck(key) => s.(rows := Acked(s.rows, key))
    case DoMaintain(live, now) => s.(rows := Maintained(s.rows, live, now))
    case DoObserve(project, recipient, registry, messages) =>
      s.(rows := Observed(s.rows, project, recipient, registry, messages))
  }

  function Run(s: System, steps: seq<Step>): System {
    if steps == [] then s else Next(Run(s, steps[..|steps| - 1]), steps[|steps| - 1])
  }

  /** The token of the most recent grant for the receipt. */
  function LastGrant(log: seq<Event>, key: Key): Option<nat> {
    if log == [] then None
    else
      var e := log[|log| - 1];
      if e.Granted? && e.key == key then Some(e.token) else LastGrant(log[..|log| - 1], key)
  }

  // ---------------------------------------------------------------- invariant

  ghost predicate LeasesOk(s: System) {
    forall key | key in s.rows && s.rows[key].state == Claimed ::
      s.rows[key].token.Some? && s.rows[key].expires.Some? && s.rows[key].token == LastGrant(s.log, key)
  }

  ghost predicate FinishedAt(log: seq<Event>, rows: Table, i: nat)
    requires i < |log| && log[i].Finished?
  {
    && log[i].used.Some? && log[i].used == LastGrant(log[..i], log[i].key)
    && log[i].key in rows && rows[log[i].key].state == Processed
    && (forall j | i < j < |log| :: log[j].key != log[i].key)
  }

  ghost predicate FinishedOnce(log: seq<Event>, rows: Table) {
    forall i | 0 <= i < |log| && log[i].Finished? :: FinishedAt(log, rows, i)
  }

  ghost predicate TokensFresh(s: System) {
    && (forall e | e in s.log && e.Granted? :: e.token < s.nextToken)
    && (forall i, j | 0 <= i < j < |s.log| && s.log[i].Granted? && s.log[j].Granted? ::
        s.log[i].token != s.log[j].token)
  }

  ghost predicate Inv(s: System) {
    LeasesOk(s) && FinishedOnce(s.log, s.rows) && TokensFresh(s)
  }

  /** A change that starts no lease, ends no terminal state, and keeps the token of a running lease. */
  ghost predicate Tame(before: Table, after: Table) {
    && before.Keys <= after.Keys
    && (forall key | key in before && Terminal(before[key].state) :: after[key].state == before[key].state)
    && (forall key | key in after && after[key].state == Claimed ::
          && key in before && before[key].state == Claimed
          && after[key].token == before[key].token && after[key].expires.Some?)
  }

  lemma TameTransitive(a: Table, b: Table, c: Table)
    requires Tame(a, b) && Tame(b, c)
    ensures Tame(a, c)
  {
  }

  lemma TameKeeps(s: System, rows: Table)
    requires Inv(s) && Tame(s.rows, rows)
    ensures Inv(s.(rows := rows))
  {
  }

  // ---------------------------------------------------------------- supersession

  /** Every lease has an end. */
  ghost predicate Ending(rows: Table) {
    forall k | k in rows && rows[k].state == Claimed :: rows[k].expires.Some?
  }

  lemma SupersededTame(rows: Table, key: Key, reason: string, acks: bool)
    requires Ending(rows)
    ensures Tame(rows, Superseded(rows, key, reason, acks)) && Ending(Superseded(rows, key, reason, acks))
  {
  }

  /** The receipts that a message of the batch supersedes with authority. */
  ghost predicate IsSuperseded(registry: Registry, batch: map<int, Message>, messages: seq<Message>, id: int) {
    exists m | m in messages :: Names(registry, batch, m, id)
  }

  ghost predicate Names(registry: Registry, batch: map<int, Message>, m: Message, id: int) {
    Some(id) in Targets(registry, m) && Authorised(registry, batch, m, id)
  }

  /** `pairs` holds (superseded, superseding) ids: this message supersedes this receipt. */
  ghost predicate Hit(project: string, recipient: string, pairs: iset<(int, int)>, key: Key, later: int) {
    key.project == project && key.recipient == recipient && (key.id, later) in pairs
  }

  /** Stale, its reason naming one of the messages that supersede it, to be acknowledged; the lease columns
      and the checkpoint stay.  What was processed stays as it was. */
  ghost predicate MadeStale(before: Table, after: Table, project: string, recipient: string,
                            pairs: iset<(int, int)>, key: Key)
  {
    && key in after
    && var was := if key in before then before[key] else Blank(Pending);
    if was.state == Processed then after[key] == was
    else
      && after[key] == was.(state := Stale, reason := after[key].reason, ackPending := true)
      && exists later ::
            Hit(project, recipient, pairs, key, later) && after[key].reason == Some("superseded_by:" + Decimal(later))
  }

  ghost predicate StaledAt(before: Table, after: Table, project: string, recipient: string,
                           pairs: iset<(int, int)>, key: Key)
  {
    if exists later :: Hit(project, recipient, pairs, key, later)
    then MadeStale(before, after, project, recipient, pairs, key)
    else (key in after <==> key in before) && (key in before ==> after[key] == before[key])
  }

  /** What `pairs` names became stale (or stayed processed); nothing else changed. */
  ghost predicate StaledExactly(before: Table, after: Table, project: string, recipient: string,
                                pairs: iset<(int, int)>)
  {
    forall key: Key :: StaledAt(before, after, project, recipient, pairs, key)
  }

  ghost function NamedUpTo(registry: Registry, batch: map<int, Message>, m: Message, n: nat): iset<(int, int)>
    requires n <= |Targets(registry, m)|
  {
    iset id | Some(id) in Targets(registry, m)[..n] && Authorised(registry, batch, m, id) :: (id, m.id)
  }

  lemma StaledTwice(a: Table, b: Table, c: Table, project: string, recipient: string,
                    first: iset<(int, int)>, second: iset<(int, int)>, both: iset<(int, int)>)
    requires StaledExactly(a, b, project, recipient, first) && StaledExactly(b, c, project, recipient, second)
    requires forall pair :: pair in both <==> pair in first || pair in second
    ensures StaledExactly(a, c, project, recipient, both)
  {
    forall key: Key ensures StaledAt(a, c, project, recipient, both, key) {
      assert StaledAt(a, b, project, recipient, first, key);
      assert StaledAt(b, c, project, recipient, second, key);
      StaledTwiceAt(a, b, c, project, recipient, first, second, both, key);
    }
  }

  lemma StaledTwiceAt(a: Table, b: Table, c: Table, project: string, recipient: string,
                      first: iset<(int, int)>, second: iset<(int, int)>, both: iset<(int, int)>, key: Key)
    requires StaledAt(a, b, project, recipient, first, key) && StaledAt(b, c, project, recipient, second, key)
    requires forall pair :: pair in both <==> pair in first || pair in second
    ensures StaledAt(a, c, project, recipient, both, key)
  {
    assert forall later :: Hit(project, recipient, both, key, later) <==>
           Hit(project, recipient, first, key, later) || Hit(project, recipient, second, key, later);
  }

  lemma UnchangedStales(rows: Table, project: string, recipient: string)
    ensures StaledExactly(rows, rows, project, recipient, iset{})
  {
  }

  lemma SupersededStales(rows: Table, project: string, recipient: string, id: int, later: int)
    ensures StaledExactly(rows, Superseded(rows, Key(project, recipient, id), SupersededBy(later), true), project,
                          recipient, iset{(id, later)})
  {
    var after := Superseded(rows, Key(project, recipient, id), SupersededBy(later), true);
    forall key: Key ensures StaledAt(rows, after, project, recipient, iset{(id, later)}, key) {
      if key == Key(project, recipient, id) { assert Hit(project, recipient, iset{(id, later)}, key, later); }
    }
  }

  lemma {:induction false} ObserveTargetsTame(rows: Table, project: string, recipient: string, registry: Registry,
                                              batch: map<int, Message>, m: Message, n: nat)
    requires n <= |Targets(registry, m)| && Ending(rows)
    ensures var after := ObserveTargets(rows, project, recipient, registry, batch, m, n);
            Tame(rows, after) && Ending(after)
  {
    if n > 0 {
      ObserveTargetsTame(rows, project, recipient, registry, batch, m, n - 1);
      var target := Targets(registry, m)[n - 1];
      if target.Some? && Authorised(registry, batch, m, target.value) {
        var before := ObserveTargets(rows, project, recipient, registry, batch, m, n - 1);
        SupersededTame(before, Key(project, recipient, target.value), SupersededBy(m.id), true);
        TameTransitive(rows, before,
                       Superseded(before, Key(project, recipient, target.value), SupersededBy(m.id), true));
      }
    }
  }

  lemma {:induction false} ObserveTargetsExact(rows: Table, project: string, recipient: string, registry: Registry,
                                               batch: map<int, Message>, m: Message, n: nat)
    requires n <= |Targets(registry, m)|
    ensures var after := ObserveTargets(rows, project, recipient, registry, batch, m, n);
            StaledExactly(rows, after, project, recipient, NamedUpTo(registry, batch, m, n))
  {
    if n > 0 {
      ObserveTargetsExact(rows, project, recipient, registry, batch, m, n - 1);
      var before := ObserveTargets(rows, project, recipient, registry, batch, m, n - 1);
      var target := Targets(registry, m)[n - 1];
      var added :=
        if target.Some? && Authorised(registry, batch, m, target.value) then iset{(target.value, m.id)} else iset{};
      assert Targets(registry, m)[..n] == Targets(registry, m)[..n - 1] + [target];
      assert forall pair :: pair in NamedUpTo(registry, batch, m, n) <==>
             pair in NamedUpTo(registry, batch, m, n - 1) || pair in added;
      SupersededStales(before, project, recipient, if target.Some? then target.value else 0, m.id);
      UnchangedStales(before, project, recipient);
      StaledTwice(rows, before, ObserveTargets(rows, project, recipient, registry, batch, m, n), project, recipient,
                  NamedUpTo(registry, batch, m, n - 1), added, NamedUpTo(registry, batch, m, n));
    } else {
      assert NamedUpTo(registry, batch, m, 0) == iset{};
      UnchangedStales(rows, project, recipient);
    }
  }

  ghost function NamedBy(registry: Registry, messages: seq<Message>, n: nat): iset<(int, int)>
    requires n <= |messages|
  {
    iset m, id | m in messages[..n] && Names(registry, Batch(messages), m, id) :: (id, m.id)
  }

  lemma NamedByGrows(registry: Registry, messages: seq<Message>, n: nat)
    requires 0 < n <= |messages|
    ensures var m := messages[n - 1];
            forall pair :: pair in NamedBy(registry, messages, n) <==>
              pair in NamedBy(registry, messages, n - 1)
                  || pair in NamedUpTo(registry, Batch(messages), m, |Targets(registry, m)|)
  {
    var m := messages[n - 1];
    var all := Targets(registry, m);
    assert all[..|all|] == all;
    assert messages[..n] == messages[..n - 1] + [m];
    assert forall k :: k in messages[..n] <==> k in messages[..n - 1] || k == m;
    forall pair ensures pair in NamedBy(registry, messages, n) <==>
              || pair in NamedBy(registry, messages, n - 1)
              || (pair.1 == m.id && Names(registry, Batch(messages), m, pair.0)) {
      if pair in NamedBy(registry, messages, n - 1) {
        var k :| k in messages[..n - 1] && Names(registry, Batch(messages), k, pair.0) && k.id == pair.1;
        assert k in messages[..n];
      }
      if pair.1 == m.id && Names(registry, Batch(messages), m, pair.0) {
        assert m in messages[..n];
      }
    }
  }

  lemma {:induction false} ObserveFirstTame(rows: Table, project: string, recipient: string, registry: Registry,
                                            messages: seq<Message>, n: nat)
    requires n <= |messages| && Ending(rows)
    ensures var after := ObserveFirst(rows, project, recipient, registry, messages, n);
            Tame(rows, after) && Ending(after)
  {
    if n > 0 {
      ObserveFirstTame(rows, project, recipient, registry, messages, n - 1);
      var m := messages[n - 1];
      var before := ObserveFirst(rows, project, recipient, registry, messages, n - 1);
      ObserveTargetsTame(before, project, recipient, registry, Batch(messages), m, |Targets(registry, m)|);
      TameTransitive(rows, before, ObserveFirst(rows, project, recipient, registry, messages, n));
    }
  }

  /** What the first `n` messages of the batch make stale is what they name. */
  ghost predicate UpTo(rows: Table, project: string, recipient: string, registry: Registry, messages: seq<Message>,
                       n: nat)
    requires n <= |messages|
  {
    StaledExactly(rows, ObserveFirst(rows, project, recipient, registry, messages, n), project, recipient,
                  NamedBy(registry, messages, n))
  }

  lemma NoneExact(rows: Table, project: string, recipient: string, registry: Registry, messages: seq<Message>)
    ensures UpTo(rows, project, recipient, registry, messages, 0)
  {
    assert NamedBy(registry, messages, 0) == iset{};
    UnchangedStales(rows, project, recipient);
  }

  lemma OneMoreExact(rows: Table, project: string, recipient: string, registry: Registry, messages: seq<Message>,
                     n: nat)
    requires 0 < n <= |messages| && UpTo(rows, project, recipient, registry, messages, n - 1)
    ensures UpTo(rows, project, recipient, registry, messages, n)
  {
    var m := messages[n - 1];
    var named := NamedUpTo(registry, Batch(messages), m, |Targets(registry, m)|);
    var before := ObserveFirst(rows, project, recipient, registry, messages, n - 1);
    var after := ObserveTargets(before, project, recipient, registry, Batch(messages), m, |Targets(registry, m)|);
    ObserveTargetsExact(before, project, recipient, registry, Batch(messages), m, |Targets(registry, m)|);
    NamedByGrows(registry, messages, n);
    StaledTwice(rows, before, after, project, recipient, NamedBy(registry, messages, n - 1), named,
                NamedBy(registry, messages, n));
  }

  lemma {:induction false} ObserveFirstExact(rows: Table, project: string, recipient: string, registry: Registry,
                                             messages: seq<Message>, n: nat)
    requires n <= |messages|
    ensures UpTo(rows, project, recipient, registry, messages, n)
  {
    if n == 0 {
      NoneExact(rows, project, recipient, registry, messages);
    } else {
      ObserveFirstExact(rows, project, recipient, registry, messages, n - 1);
      OneMoreExact(rows, project, recipient, registry, messages, n);
    }
  }

  // ---------------------------------------------------------------- one step

  lemma UnderLeaseTame(rows: Table, key: Key, text: string, token: Option<nat>, now: real)
    requires Ending(rows)
    ensures Tame(rows, Fail(rows, key, text, token, now).0) && Tame(rows, Checkpoint(rows, key, text, token, now).0)
  {
  }

  lemma WithoutLeaseTame(rows: Table, key: Key, text: string)
    requires Ending(rows)
    ensures Tame(rows, Dismiss(rows, key, text)) && Tame(rows, Acked(rows, key))
    ensures Tame(rows, Annotate(rows, key, Pending, text)) && Tame(rows, Annotate(rows, key, Notified, text))
  {
  }

  lemma MaintainedTame(rows: Table, live: set<Key>, now: real)
    requires Ending(rows)
    ensures Tame(rows, Maintained(rows, live, now))
  {
  }

  lemma NextTame(s: System, step: Step)
    requires Inv(s) && !step.DoClaim? && !(step.DoComplete?)
    ensures Tame(s.rows, Next(s, step).rows)
  {
    if step.DoFail? || step.DoCheckpoint? { LeaseStepTame(s, step); } else { FreeStepTame(s, step); }
  }

  lemma LeaseStepTame(s: System, step: Step)
    requires Inv(s) && (step.DoFail? || step.DoCheckpoint?)
    ensures Tame(s.rows, Next(s, step).rows)
  {
    match step
    case DoFail(key, reason, token, now) => UnderLeaseTame(s.rows, key, reason, token, now);
    case DoCheckpoint(key, text, token, now) => UnderLeaseTame(s.rows, key, text, token, now);
  }

  lemma FreeStepTame(s: System, step: Step)
    requires Inv(s) && !step.DoClaim? && !step.DoComplete? && !step.DoFail? && !step.DoCheckpoint?
    ensures Tame(s.rows, Next(s, step).rows)
  {
    match step
    case DoDismiss(key, reason) => WithoutLeaseTame(s.rows, key, reason);
    case DoPause(key, text) => WithoutLeaseTame(s.rows, key, text);
    case DoMarker(key, text) => WithoutLeaseTame(s.rows, key, text);
    case DoAck(key) => WithoutLeaseTame(s.rows, key, "");
    case DoMaintain(live, now) => MaintainedTame(s.rows, live, now);
    case DoObserve(project, recipient, registry, messages) =>
      ObserveFirstTame(s.rows, project, recipient, registry, messages, |messages|);
  }

  lemma {:induction false} LogAppended(log: seq<Event>, e: Event, key: Key)
    ensures LastGrant(log + [e], key) == if e.Granted? && e.key == key then Some(e.token) else LastGrant(log, key)
    ensures forall i | 0 <= i <= |log| :: (log + [e])[..i] == log[..i]
  {
    assert (log + [e])[..|log|] == log;
  }

  /** An event for a receipt that is not processed yet leaves the earlier history of finished ones true. */
  lemma EarlierFinishedStay(log: seq<Event>, rows: Table, e: Event, after: Table, i: nat)
    requires FinishedOnce(log, rows) && i < |log| && log[i].Finished?
    requires (e.key in rows ==> rows[e.key].state != Processed)
    requires rows.Keys <= after.Keys && forall key | key in rows && key != e.key :: after[key] == rows[key]
    ensures FinishedAt(log + [e], after, i)
  {
    assert (log + [e])[..i] == log[..i];
    assert log[i].key != e.key;
  }

  lemma GrantedLeases(s: System, key: Key, r: Receipt)
    requires Inv(s) && (r.state == Claimed ==> r.token == Some(s.nextToken) && r.expires.Some?)
    ensures LeasesOk(System(s.rows[key := r], s.nextToken + 1, s.log + [Granted(key, s.nextToken)]))
  {
    var t := System(s.rows[key := r], s.nextToken + 1, s.log + [Granted(key, s.nextToken)]);
    forall k | k in t.rows && t.rows[k].state == Claimed ensures t.rows[k].token == LastGrant(t.log, k) {
      LogAppended(s.log, Granted(key, s.nextToken), k);
    }
  }

  lemma GrantedOnce(s: System, key: Key, r: Receipt)
    requires Inv(s) && (key in s.rows ==> s.rows[key].state != Processed)
    ensures FinishedOnce(s.log + [Granted(key, s.nextToken)], s.rows[key := r])
  {
    var log := s.log + [Granted(key, s.nextToken)];
    forall i | 0 <= i < |log| && log[i].Finished? ensures FinishedAt(log, s.rows[key := r], i) {
      EarlierFinishedStay(s.log, s.rows, Granted(key, s.nextToken), s.rows[key := r], i);
    }
  }

  lemma GrantedFresh(s: System, rows: Table, key: Key)
    requires Inv(s)
    ensures TokensFresh(System(rows, s.nextToken + 1, s.log + [Granted(key, s.nextToken)]))
  {
    assert forall i | 0 <= i < |s.log| :: s.log[i] in s.log;
  }

  lemma ClaimKeeps(s: System, step: Step)
    requires Inv(s) && step.DoClaim?
    ensures Inv(Next(s, step))
  {
    var (rows, grant) := Claim(s.rows, step.key, step.claimant, step.now, step.ttl, step.verdict, step.text,
                               s.nextToken);
    if grant.Some? {
      var r := rows[step.key];
      assert rows == s.rows[step.key := r];
      GrantedLeases(s, step.key, r);
      GrantedOnce(s, step.key, r);
      GrantedFresh(s, rows, step.key);
    } else {
      assert Tame(s.rows, rows);
      TameKeeps(s, rows);
    }
  }

  lemma CompletedLeases(s: System, key: Key, token: Option<nat>, now: real)
    requires Inv(s) && Complete(s.rows, key, token, now).1 == Ok(Completed)
    ensures LeasesOk(Next(s, DoComplete(key, token, now)))
  {
    var t := Next(s, DoComplete(key, token, now));
    forall k | k in t.rows && t.rows[k].state == Claimed ensures LastGrant(t.log, k) == LastGrant(s.log, k) {
      LogAppended(s.log, Finished(key, token), k);
    }
  }

  lemma CompletedOnce(s: System, key: Key, token: Option<nat>, now: real)
    requires Inv(s) && Complete(s.rows, key, token, now).1 == Ok(Completed)
    ensures FinishedOnce(Next(s, DoComplete(key, token, now)).log, Next(s, DoComplete(key, token, now)).rows)
  {
    var t := Next(s, DoComplete(key, token, now));
    forall i | 0 <= i < |t.log| && t.log[i].Finished? ensures FinishedAt(t.log, t.rows, i) {
      if i < |s.log| {
        EarlierFinishedStay(s.log, s.rows, Finished(key, token), t.rows, i);
      } else {
        assert t.log[..i] == s.log;
      }
    }
  }

  lemma CompleteKeeps(s: System, step: Step)
    requires Inv(s) && step.DoComplete?
    ensures Inv(Next(s, step))
  {
    if Complete(s.rows, step.key, step.token, step.now).1 == Ok(Completed) {
      CompletedLeases(s, step.key, step.token, step.now);
      CompletedOnce(s, step.key, step.token, step.now);
      assert forall i | 0 <= i < |s.log| :: Next(s, step).log[i] == s.log[i];
    } else {
      assert Next(s, step) == s;
    }
  }

  lemma NextKeeps(s: System, step: Step)
    requires Inv(s)
    ensures Inv(Next(s, step))
  {
    if step.DoClaim? {
      ClaimKeeps(s, step);
    } else if step.DoComplete? {
      CompleteKeeps(s, step);
    } else {
      NextTame(s, step);
      TameKeeps(s, Next(s, step).rows);
    }
  }

  lemma {:induction false} Reachable(steps: seq<Step>)
    ensures Inv(Run(INITIAL, steps))
  {
    if steps != [] {
      Reachable(steps[..|steps| - 1]);
      NextKeeps(Run(INITIAL, steps[..|steps| - 1]), steps[|steps| - 1]);
    }
  }

  // ---------------------------------------------------------------- promises

  /** At most one grant ever moves a receipt to processed; it is the most recent one, and no grant
      follows it. */
  lemma OneGrantFinishes(steps: seq<Step>, i: nat)
    requires i < |Run(INITIAL, steps).log| && Run(INITIAL, steps).log[i].Finished?
    ensures var s := Run(INITIAL, steps);
            && s.log[i].used.Some?
            && s.log[i].used == LastGrant(s.log[..i], s.log[i].key)
            && (forall j | i < j < |s.log| :: s.log[j].key != s.log[i].key)
            && s.log[i].key in s.rows && s.rows[s.log[i].key].state == Processed
  {
    Reachable(steps);
  }

  /** Whoever completes, fails or (before completion) checkpoints a message holds the most recent
      grant and an unexpired lease; any older token changes nothing. */
  lemma OnlyTheLastGrantActs(steps: seq<Step>, key: Key, token: Option<nat>, now: real, reason: string)
    ensures var s := Run(INITIAL, steps);
            var holds := && key in s.rows && s.rows[key].state == Claimed && s.rows[key].expires.Some?
                         && now < s.rows[key].expires.value && token.Some? && token == LastGrant(s.log, key);
            && (Complete(s.rows, key, token, now).0 != s.rows ==> holds)
            && (Fail(s.rows, key, reason, token, now).0 != s.rows ==> holds)
            && (Checkpoint(s.rows, key, reason, token, now).0 != s.rows ==> holds || s.rows[key].state == Processed)
            && (holds ==> (Complete(s.rows, key, token, now).1 == Ok(Completed)
                           && Fail(s.rows, key, reason, token, now).1 == Ok(true)
                           && Checkpoint(s.rows, key, reason, token, now).1 == Ok(true)))
  {
    Reachable(steps);
  }

  /** Two grants never have one token, and a message is granted again only when no lease on it runs. */
  lemma GrantsExclude(steps: seq<Step>, key: Key, claimant: string, now: real, ttl: real, verdict: Verdict,
                      text: string)
    requires var s := Run(INITIAL, steps);
             Claim(s.rows, key, claimant, now, ttl, verdict, text, s.nextToken).1.Some?
    ensures var s := Run(INITIAL, steps);
            var (rows, grant) := Claim(s.rows, key, claimant, now, ttl, verdict, text, s.nextToken);
            && (forall e | e in s.log && e.Granted? :: e.token != grant.value)
            && (key in s.rows && s.rows[key].state == Claimed ==>
                  s.rows[key].expires.Some? && s.rows[key].expires.value <= now)
            && (key in s.rows ==> !Terminal(s.rows[key].state))
            && rows[key].token == grant && rows[key].expires == Some(now + ttl)
  {
    Reachable(steps);
  }

  /** After maintenance at `now` every lease ends later than `now` under its old token: those of working panes
      300 seconds later, the others when they did.  What was taken back had expired and belonged to no working
      pane; it is pending again with its checkpoint. */
  lemma MaintenanceExact(steps: seq<Step>, live: set<Key>, now: real, key: Key)
    requires key in Run(INITIAL, steps).rows
    ensures var rows := Run(INITIAL, steps).rows;
            var before, after := rows[key], Maintained(rows, live, now)[key];
            && (before.state == Claimed ==> before.expires.Some?)
            && (after.state == Claimed <==> before.state == Claimed && (key in live || now < before.expires.value))
            && (after.state == Claimed ==>
                  now < after.expires.value
                  && after == if key in live then before.(expires := Some(now + 300.0)) else before)
            && (before.state == Claimed && after.state != Claimed ==>
                  after == Receipt(Pending, None, None, None, Some("claim_expired"), before.ackPending,
                                   before.checkpoint))
            && (before.state != Claimed ==> after == before)
  {
    Reachable(steps);
  }

  lemma NextKeepsTerminal(s: System, step: Step, key: Key)
    requires Inv(s) && key in s.rows && Terminal(s.rows[key].state)
    ensures key in Next(s, step).rows && Next(s, step).rows[key].state == s.rows[key].state
  {
    if !step.DoClaim? && !step.DoComplete? { NextTame(s, step); }
  }

  /** Processed and stale are final under every operation. */
  lemma {:induction false} TerminalForever(before: seq<Step>, after: seq<Step>, key: Key)
    requires key in Run(INITIAL, before).rows && Terminal(Run(INITIAL, before).rows[key].state)
    ensures var t := Run(INITIAL, before + after);
            key in t.rows && t.rows[key].state == Run(INITIAL, before).rows[key].state
  {
    var steps := before + after;
    if after == [] {
      assert steps == before;
    } else {
      assert steps[..|steps| - 1] == before + after[..|after| - 1];
      TerminalForever(before, after[..|after| - 1], key);
      Reachable(before + after[..|after| - 1]);
      NextKeepsTerminal(Run(INITIAL, before + after[..|after| - 1]), after[|after| - 1], key);
    }
  }

  // ---------------------------------------------------------------- who may supersede what

  /** The metadata that counts for a message: what is on file under its id, if that is an object, and else
      what the message carries. */
  ghost predicate Describes(registry: Registry, m: Message, meta: Meta) {
    if m.id in registry.stored && registry.stored[m.id].meta.Some? then registry.stored[m.id].meta.value == meta
    else m.embedded == Some(meta)
  }

  /** On file as written by a trusted user. */
  ghost predicate TrustedOnFile(registry: Registry, m: Message) {
    m.id in registry.stored && registry.stored[m.id].meta.Some? && registry.stored[m.id].trusted
  }

  /** The sender recorded for an id: that of the last message of the batch with this id, and else the one on
      file. */
  ghost predicate SentBy(registry: Registry, messages: seq<Message>, id: int, sender: string) {
    || (exists i :: 0 <= i < |messages| && messages[i].id == id && messages[i].sender == sender
                    && forall j | i < j < |messages| :: messages[j].id != id)
    || ((forall m | m in messages :: m.id != id) && id in registry.stored && registry.stored[id].sender == sender)
  }

  /** `m` names the id, and a trusted user wrote it, its sender leads its run, or its sender is the one
      recorded for the id. */
  ghost predicate Supersedes(registry: Registry, messages: seq<Message>, m: Message, id: int) {
    exists meta :: Describes(registry, m, meta) && Some(id) in meta.supersedes &&
      (|| TrustedOnFile(registry, m)
       || (meta.run.Some? && meta.run.value != "" && (meta.run.value, m.sender) in registry.leads)
       || SentBy(registry, messages, id, m.sender))
  }

  /** The (superseded, superseding) ids of a batch. */
  ghost function SupersededPairs(registry: Registry, messages: seq<Message>): iset<(int, int)> {
    iset m, id | m in messages && Supersedes(registry, messages, m, id) :: (id, m.id)
  }

  ghost predicate SupersededIn(registry: Registry, messages: seq<Message>, id: int) {
    exists m :: m in messages && Supersedes(registry, messages, m, id)
  }

  /** The batch as a dict holds the last message of each id. */
  lemma {:induction false} BatchHolds(messages: seq<Message>, id: int) returns (i: nat)
    ensures id !in Batch(messages) ==> forall m | m in messages :: m.id != id
    ensures id in Batch(messages) ==>
              && i < |messages| && Batch(messages)[id] == messages[i] && messages[i].id == id
              && (forall j | i < j < |messages| :: messages[j].id != id)
  {
    i := 0;
    if messages != [] {
      var front, last := messages[..|messages| - 1], messages[|messages| - 1];
      if last.id == id {
        i := |messages| - 1;
      } else {
        i := BatchHolds(front, id);
        assert forall m :: m in messages <==> m in front || m == last;
        if id in Batch(front) { assert messages[i] == front[i]; }
      }
    }
  }

  lemma SentByIs(registry: Registry, messages: seq<Message>, id: int, sender: string)
    ensures SentBy(registry, messages, id, sender) <==> OldSender(registry, Batch(messages), id) == Some(sender)
  {
    var i := BatchHolds(messages, id);
    if id in Batch(messages) {
      assert messages[i] in messages;
      if k :| 0 <= k < |messages| && messages[k].id == id && messages[k].sender == sender
              && forall j | k < j < |messages| :: messages[j].id != id
      {
        assert k == i;
      }
    }
  }

  lemma SupersedesIs(registry: Registry, messages: seq<Message>, m: Message, id: int)
    ensures Supersedes(registry, messages, m, id) <==> Names(registry, Batch(messages), m, id)
  {
    SentByIs(registry, messages, id, m.sender);
    var meta := TrustedMeta(registry, m).0;
    if meta.Some? { assert Describes(registry, m, meta.value); }
  }

  lemma SupersededIs(registry: Registry, messages: seq<Message>, id: int)
    ensures SupersededIn(registry, messages, id) <==> IsSuperseded(registry, Batch(messages), messages, id)
  {
    forall m ensures Supersedes(registry, messages, m, id) <==> Names(registry, Batch(messages), m, id) {
      SupersedesIs(registry, messages, m, id);
    }
  }

  lemma PairsAre(registry: Registry, messages: seq<Message>)
    ensures SupersededPairs(registry, messages) == NamedBy(registry, messages, |messages|)
  {
    assert messages[..|messages|] == messages;
    forall m, id ensures Supersedes(registry, messages, m, id) <==> Names(registry, Batch(messages), m, id) {
      SupersedesIs(registry, messages, m, id);
    }
  }

  /** Observing a batch makes stale exactly what its messages supersede: an id that some message names in the
      metadata that counts for it, when that message is on file as a trusted user's, or its sender leads its
      run, or is the sender recorded for the id. */
  lemma ObserveExact(rows: Table, project: string, recipient: string, registry: Registry, messages: seq<Message>)
    ensures StaledExactly(rows, Observed(rows, project, recipient, registry, messages), project, recipient,
                          SupersededPairs(registry, messages))
  {
    ObserveFirstExact(rows, project, recipient, registry, messages, |messages|);
    PairsAre(registry, messages);
  }

  /** A batch none of whose messages has that authority changes nothing. */
  lemma StrangersChangeNothing(rows: Table, project: string, recipient: string, registry: Registry,
                               messages: seq<Message>)
    requires forall id :: !SupersededIn(registry, messages, id)
    ensures Observed(rows, project, recipient, registry, messages) == rows
  {
    var after := Observed(rows, project, recipient, registry, messages);
    ObserveExact(rows, project, recipient, registry, messages);
    forall key: Key ensures (key in after <==> key in rows) && (key in rows ==> after[key] == rows[key]) {
      assert StaledAt(rows, after, project, recipient, SupersededPairs(registry, messages), key);
      assert !SupersededIn(registry, messages, key.id);
    }
    assert after.Keys == rows.Keys;
  }

  /** Authority that a message claims for itself counts for nothing: one that is not on file and that comes
      from nobody who leads its run or sent what it names changes nothing. */
  lemma ClaimedTrustIsIgnored(rows: Table, project: string, recipient: string, registry: Registry, m: Message)
    requires m.embedded.Some? && m.embedded.value.claimsUser && m.id !in registry.stored
    requires m.embedded.value.run.Some? ==> (m.embedded.value.run.value, m.sender) !in registry.leads
    requires forall id | Some(id) in m.embedded.value.supersedes ::
               id != m.id && !(id in registry.stored && registry.stored[id].sender == m.sender)
    ensures Observed(rows, project, recipient, registry, [m]) == rows
  {
    StrangersChangeNothing(rows, project, recipient, registry, [m]);
  }

  /** No later claim delivers a message that an observed batch supersedes. */
  lemma SupersededNeverDelivered(before: seq<Step>, observe: Step, after: seq<Step>, id: int,
                                 claimant: string, now: real, ttl: real, verdict: Verdict, text: string)
    requires observe.DoObserve? && SupersededIn(observe.registry, observe.messages, id)
    ensures var t := Run(INITIAL, before + [observe] + after);
            var key := Key(observe.project, observe.recipient, id);
            Claim(t.rows, key, claimant, now, ttl, verdict, text, t.nextToken) == (t.rows, None)
  {
    var key := Key(observe.project, observe.recipient, id);
    var all := before + [observe];
    assert all[..|all| - 1] == before;
    var rows := Run(INITIAL, before).rows;
    ObserveExact(rows, observe.project, observe.recipient, observe.registry, observe.messages);
    var pairs := SupersededPairs(observe.registry, observe.messages);
    var m :| m in observe.messages && Supersedes(observe.registry, observe.messages, m, id);
    assert Hit(observe.project, observe.recipient, pairs, key, m.id);
    assert StaledAt(rows, Run(INITIAL, all).rows, observe.project, observe.recipient, pairs, key);
    TerminalForever(all, after, key);
  }
}

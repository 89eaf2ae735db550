/** The receipts table as the code updates it: one method per transaction. */
module ReceiptStore {
  import opened Prelude
  import opened ReceiptKeys
  import opened Receipts

  /** The claimed receipts of working panes. */
  function Due(rows: Table, live: set<Key>): set<Key> {
    set key | key in rows && rows[key].state == Claimed && key in live
  }

  /** `after` is `before` with every live lease renewed, except those still to do. */
  ghost predicate RenewedBut(before: Table, after: Table, live: set<Key>, now: real, todo: set<Key>) {
    && after.Keys == before.Keys
    && (forall key | key in before ::
          after[key] == if key in todo then before[key] else Renewed(before[key], key in live, now))
  }

  lemma RenewStep(before: Table, mid: Table, live: set<Key>, now: real, todo: set<Key>, key: Key)
    requires RenewedBut(before, mid, live, now, todo) && key in todo && key in before && before[key].state == Claimed
    ensures RenewedBut(before, if key in live then mid[key := mid[key].(expires := Some(now + CLAIM_TTL))] else mid,
                       live, now, todo - {key})
  {
  }

  lemma CountStep(due: set<Key>, todo: set<Key>, key: Key)
    requires key in todo
    ensures |due - (todo - {key})| == |due - todo| + if key in due then 1 else 0
  {
    assert due - (todo - {key}) == if key in due then (due - todo) + {key} else due - todo;
  }

  class ReceiptTable {
    var rows: Table
    var nextToken: nat

    constructor ()
      ensures rows == map[] && nextToken == 0
    {
      rows, nextToken := map[], 0;
    }

    method ClaimMessage(key: Key, claimant: string, now: real, ttl: real, verdict: Verdict, checkpoint: string)
      returns (grant: Option<nat>)
      modifies this
      ensures (rows, grant) == Claim(old(rows), key, claimant, now, ttl, verdict, checkpoint, old(nextToken))
      ensures nextToken == old(nextToken) + 1
    {
      grant := None;
      var token := nextToken;
      nextToken := nextToken + 1;
      if key in rows {
        if rows[key].state == Processed || rows[key].state == Stale { return; }
        var expires := if rows[key].expires.Some? then rows[key].expires.value else 0.0;
        if rows[key].state == Claimed && expires > now { return; }
      }
      if verdict.GateRejects? {
        UpsertStale(key, verdict.gateReason, false);
        return;
      }
      var kept := checkpoint;
      if key in rows && rows[key].checkpoint != "" { kept := rows[key].checkpoint; }
      if verdict.TaskStale? {
        rows := rows[key := Receipt(Stale, None, None, None, Some(verdict.staleReason), true, kept)];
      } else {
        rows := rows[key := Receipt(Claimed, Some(claimant), Some(token), Some(now + ttl), None, false, kept)];
        grant := Some(token);
      }
    }

    /** The upsert that claim's gate and `observe_messages` share. */
    method UpsertStale(key: Key, reason: string, acks: bool)
      modifies this`rows
      ensures rows == Superseded(old(rows), key, reason, acks)
    {
      if key !in rows {
        rows := rows[key := Receipt(Stale, None, None, None, Some(reason), true, "")];
      } else if rows[key].state != Processed {
        var r := rows[key];
        rows := rows[key := r.(state := Stale, reason := Some(reason), ackPending := acks || r.ackPending)];
      }
    }

    method CompleteMessage(key: Key, token: Option<nat>, now: real) returns (r: Result<Done, Error>)
      modifies this`rows
      ensures (rows, r) == Complete(old(rows), key, token, now)
    {
      if key !in rows { return Err(NotClaimed); }
      var row := rows[key];
      if row.state == Stale { return Ok(WasStale); }
      if row.state == Processed { return Ok(AlreadyProcessed); }
      if row.state != Claimed { return Err(NotAllowed); }
      if row.expires.Some? && row.expires.value <= now { return Err(Expired); }
      if row.token.Some? && token != row.token { return Err(Invalidated); }
      rows := rows[key := Receipt(Processed, None, None, None, row.reason, true, row.checkpoint)];
      return Ok(Completed);
    }

    method FailMessage(key: Key, reason: string, token: Option<nat>, now: real) returns (r: Result<bool, Error>)
      modifies this`rows
      ensures (rows, r) == Fail(old(rows), key, reason, token, now)
    {
      if key !in rows { return Ok(false); }
      var row := rows[key];
      if row.state != Claimed { return Ok(false); }
      if row.expires.Some? && row.expires.value <= now { return Err(Expired); }
      if row.token.Some? && token != row.token { return Err(Invalidated); }
      rows := rows[key := Receipt(Failed, None, None, None, Some(reason), row.ackPending, row.checkpoint)];
      return Ok(true);
    }

    method CheckpointMessage(key: Key, text: string, token: Option<nat>, now: real) returns (r: Result<bool, Error>)
      modifies this`rows
      ensures (rows, r) == Checkpoint(old(rows), key, text, token, now)
    {
      if key !in rows { return Err(NotClaimed); }
      var row := rows[key];
      if row.state != Claimed && row.state != Processed { return Err(NotAllowed); }
      if row.state == Claimed {
        if row.expires.Some? && row.expires.value <= now { return Err(Expired); }
        if row.token.Some? && token != row.token { return Err(Invalidated); }
      }
      rows := rows[key := row.(checkpoint := text)];
      return Ok(true);
    }

    method DismissMessage(key: Key, reason: string)
      modifies this`rows
      ensures rows == Dismiss(old(rows), key, reason)
    {
      if key !in rows {
        rows := rows[key := Receipt(Stale, None, None, None, Some(reason), true, "")];
      } else if rows[key].state == Processed {
        rows := rows[key := rows[key].(ackPending := true)];
      } else {
        rows := rows[key := rows[key].(state := Stale, reason := Some(reason), ackPending := true)];
      }
    }

    /** Renews leases key by key, then takes back in one update what has expired. */
    method MaintainLiveClaims(live: set<Key>, now: real) returns (renewed: nat)
      modifies this`rows
      ensures rows == Maintained(old(rows), live, now)
      ensures renewed == |Due(old(rows), live)|
    {
      renewed := RenewLiveClaims(live, now);
      rows := map key | key in rows ::
        if rows[key].state == Claimed && rows[key].expires.Some? && rows[key].expires.value <= now
        then Receipt(Pending, None, None, None, Some("claim_expired"), rows[key].ackPending, rows[key].checkpoint)
        else rows[key];
    }

    method RenewLiveClaims(live: set<Key>, now: real) returns (renewed: nat)
      modifies this`rows
      ensures RenewedBut(old(rows), rows, live, now, {})
      ensures renewed == |Due(old(rows), live)|
    {
      ghost var before := rows;
      var todo := set key | key in rows && rows[key].state == Claimed;
      renewed := 0;
      while todo != {}
        invariant todo <= before.Keys && forall key | key in todo :: before[key].state == Claimed
        invariant RenewedBut(before, rows, live, now, todo)
        invariant renewed == |Due(before, live) - todo|
        decreases |todo|
      {
        var key :| key in todo;
        RenewStep(before, rows, live, now, todo, key);
        CountStep(Due(before, live), todo, key);
        if key in live {
          rows := rows[key := rows[key].(expires := Some(now + CLAIM_TTL))];
          renewed := renewed + 1;
        }
        todo := todo - {key};
      }
      assert Due(before, live) - {} == Due(before, live);
    }

    method RecordedSender(registry: Registry, batch: map<int, Message>, id: int) returns (sender: Option<string>)
      ensures sender == OldSender(registry, batch, id)
    {
      sender := None;
      if id in batch { sender := Some(batch[id].sender); }
      if sender.None? && id in registry.stored { sender := Some(registry.stored[id].sender); }
    }

    /** One message's list. */
    method ObserveMessage(project: string, recipient: string, registry: Registry, batch: map<int, Message>, m: Message)
      modifies this`rows
      ensures rows == ObserveTargets(old(rows), project, recipient, registry, batch, m, |Targets(registry, m)|)
    {
      var (meta, trusted) := TrustedMeta(registry, m);
      var run := if meta.Some? && meta.value.run.Some? then meta.value.run.value else "";
      var lead := run != "" && (run, m.sender) in registry.leads;
      var supersedes := if meta.Some? then meta.value.supersedes else [];
      for j := 0 to |supersedes|
        invariant rows == ObserveTargets(old(rows), project, recipient, registry, batch, m, j)
      {
        if supersedes[j].Some? {
          var target := supersedes[j].value;
          var oldSender := RecordedSender(registry, batch, target);
          if trusted || lead || oldSender == Some(m.sender) {
            UpsertStale(Key(project, recipient, target), SupersededBy(m.id), true);
          }
        }
      }
    }

    method ObserveMessages(project: string, recipient: string, registry: Registry, messages: seq<Message>)
      modifies this`rows
      ensures rows == Observed(old(rows), project, recipient, registry, messages)
    {
      var batch := Batch(messages);
      for i := 0 to |messages|
        invariant rows == ObserveFirst(old(rows), project, recipient, registry, messages, i)
      {
        ObserveMessage(project, recipient, registry, batch, messages[i]);
      }
    }
  }
}

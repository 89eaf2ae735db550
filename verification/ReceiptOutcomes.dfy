/**
 How each transaction on a receipt ends, told from the row alone, and what no later transaction undoes: a
 dismissal, and a checkpoint that a claim found.
 */
module ReceiptOutcomes {
  import opened Prelude
  import opened ReceiptKeys
  import opened Receipts
  import opened ReceiptRuns

  // ---------------------------------------------------------------- claim

  /** Nobody may have the message: it is done with, or someone's lease on it runs. */
  predicate Withheld(rows: Table, key: Key, now: real) {
    && key in rows
    && var r := rows[key];
    || r.state == Processed || r.state == Stale
    || (r.state == Claimed && r.expires.Some? && r.expires.value > now)
  }

  /** The checkpoint on the row, if there is one, and else the one that comes with the claim. */
  function KeptText(rows: Table, key: Key, text: string): string {
    if key in rows && |rows[key].checkpoint| > 0 then rows[key].checkpoint else text
  }

  /** The lease columns, the acknowledgement and the checkpoint stay. */
  predicate OnlyStale(rows: Table, key: Key, now: Receipt, reason: string) {
    if key in rows then now == rows[key].(state := Stale, reason := Some(reason))
    else now == Receipt(Stale, None, None, None, Some(reason), true, "")
  }

  /** In every reachable state a claim delivers exactly if the message is not withheld and the verdict is to
      deliver it.  It then has one fresh lease of the given length for the claimant; any other verdict makes it
      stale; and a checkpoint that the row holds survives all of this. */
  lemma ClaimExactly(steps: seq<Step>, key: Key, claimant: string, now: real, ttl: real, verdict: Verdict,
                     text: string)
    ensures var s := Run(INITIAL, steps);
            var (t, grant) := Claim(s.rows, key, claimant, now, ttl, verdict, text, s.nextToken);
            && (grant.Some? <==> !Withheld(s.rows, key, now) && verdict == Deliverable)
            && (forall other | other != key :: (other in t <==> other in s.rows)
                                               && (other in t ==> t[other] == s.rows[other]))
            && if Withheld(s.rows, key, now) then t == s.rows
               else && key in t
                    && match verdict
                       case Deliverable =>
                         && grant == Some(s.nextToken)
                         && t[key] == Receipt(Claimed, Some(claimant), grant, Some(now + ttl), None, false,
                                              KeptText(s.rows, key, text))
                       case GateRejects(reason) => OnlyStale(s.rows, key, t[key], reason)
                       case TaskStale(reason) =>
                         t[key] == Receipt(Stale, None, None, None, Some(reason), true, KeptText(s.rows, key, text))
  {
    Reachable(steps);
  }

  // ---------------------------------------------------------------- under a lease

  /** The lease on the row runs, and this token is the one of its last grant. */
  predicate Holds(s: System, key: Key, token: Option<nat>, now: real) {
    && key in s.rows && s.rows[key].state == Claimed && s.rows[key].expires.Some?
    && now < s.rows[key].expires.value && token.Some? && token == LastGrant(s.log, key)
  }

  predicate HasRow(rows: Table, key: Key, state: State) {
    key in rows && rows[key].state == state
  }

  /** Completion ends the lease and leaves an acknowledgement due; a message that is done with is answered
      without a change; without the running lease nobody completes anything. */
  lemma CompleteExactly(steps: seq<Step>, key: Key, token: Option<nat>, now: real)
    ensures var s := Run(INITIAL, steps);
            var (t, r) := Complete(s.rows, key, token, now);
            && (r == Ok(Completed) <==> Holds(s, key, token, now))
            && (r == Ok(AlreadyProcessed) <==> HasRow(s.rows, key, Processed))
            && (r == Ok(WasStale) <==> HasRow(s.rows, key, Stale))
            && (r == Err(NotClaimed) <==> key !in s.rows)
            && (r == Err(Expired) <==> HasRow(s.rows, key, Claimed) && s.rows[key].expires.Some?
                                       && s.rows[key].expires.value <= now)
            && t == if Holds(s, key, token, now)
                    then s.rows[key := Receipt(Processed, None, None, None, s.rows[key].reason, true,
                                               s.rows[key].checkpoint)]
                    else s.rows
  {
    Reachable(steps);
  }

  /** A failure ends the lease and keeps its reason; the message can be claimed again. */
  lemma FailExactly(steps: seq<Step>, key: Key, reason: string, token: Option<nat>, now: real, later: real)
    ensures var s := Run(INITIAL, steps);
            var (t, r) := Fail(s.rows, key, reason, token, now);
            && (r == Ok(true) <==> Holds(s, key, token, now))
            && (r == Ok(false) <==> !HasRow(s.rows, key, Claimed))
            && t == (if Holds(s, key, token, now)
                     then s.rows[key := Receipt(Failed, None, None, None, Some(reason), s.rows[key].ackPending,
                                                s.rows[key].checkpoint)]
                     else s.rows)
            && (r == Ok(true) ==> !Withheld(t, key, later))
  {
    Reachable(steps);
  }

  /** A checkpoint is taken under the running lease or after completion, and changes nothing else. */
  lemma CheckpointExactly(steps: seq<Step>, key: Key, text: string, token: Option<nat>, now: real)
    ensures var s := Run(INITIAL, steps);
            var (t, r) := Checkpoint(s.rows, key, text, token, now);
            && (r == Ok(true) <==> Holds(s, key, token, now) || HasRow(s.rows, key, Processed))
            && t == if Holds(s, key, token, now) || HasRow(s.rows, key, Processed)
                    then s.rows[key := s.rows[key].(checkpoint := text)] else s.rows
  {
    Reachable(steps);
  }

  // ---------------------------------------------------------------- without a lease

  /** A dismissal makes the message stale unless it is processed, and leaves an acknowledgement due. */
  lemma DismissExactly(rows: Table, key: Key, reason: string)
    ensures var t := Dismiss(rows, key, reason);
            && key in t && t[key].ackPending
            && (HasRow(rows, key, Processed) ==> t[key] == rows[key].(ackPending := true))
            && (!HasRow(rows, key, Processed) ==> t[key].state == Stale && t[key].reason == Some(reason))
            && (key in rows ==> t[key].checkpoint == rows[key].checkpoint)
            && (forall other | other != key :: (other in t <==> other in rows)
                                               && (other in t ==> t[other] == rows[other]))
  {
  }

  /** A pause request and a prompt marker write the checkpoint and nothing else of a row that exists. */
  lemma AnnotateExactly(rows: Table, key: Key, state: State, text: string)
    ensures var t := Annotate(rows, key, state, text);
            && key in t && t[key].checkpoint == text && t.Keys == rows.Keys + {key}
            && (key in rows ==> t[key].(checkpoint := "") == rows[key].(checkpoint := ""))
            && (key !in rows ==> t[key].state == state && t[key].owner.None? && t[key].expires.None?)
            && (forall other | other in rows && other != key :: t[other] == rows[other])
  {
  }

  /** An acknowledgement clears what is due and nothing else. */
  lemma AckExactly(rows: Table, key: Key)
    ensures var t := Acked(rows, key);
            && t.Keys == rows.Keys
            && forall k | k in rows :: t[k] == if k == key then rows[k].(ackPending := false) else rows[k]
  {
  }

  /** No later claim delivers a message that was dismissed, whatever happens in between. */
  lemma DismissedNeverDelivered(before: seq<Step>, key: Key, reason: string, after: seq<Step>, claimant: string,
                                now: real, ttl: real, verdict: Verdict, text: string)
    ensures var t := Run(INITIAL, before + [DoDismiss(key, reason)] + after);
            Claim(t.rows, key, claimant, now, ttl, verdict, text, t.nextToken) == (t.rows, None)
  {
    var all := before + [DoDismiss(key, reason)];
    assert all[..|all| - 1] == before;
    DismissExactly(Run(INITIAL, before).rows, key, reason);
    TerminalForever(all, after, key);
  }

  // ---------------------------------------------------------------- checkpoints

  /** Steps that write the checkpoint of this receipt. */
  predicate Writes(step: Step, key: Key) {
    match step
    case DoCheckpoint(k, _, _, _) => k == key
    case DoPause(k, _) => k == key
    case DoMarker(k, _) => k == key
    case _ => false
  }

  ghost predicate HasText(rows: Table, key: Key, text: string) {
    key in rows && rows[key].checkpoint == text
  }

  lemma ObservedKeepsText(s: System, step: Step, key: Key, text: string)
    requires step.DoObserve? && HasText(s.rows, key, text)
    ensures HasText(Next(s, step).rows, key, text)
  {
    ObserveExact(s.rows, step.project, step.recipient, step.registry, step.messages);
    assert StaledAt(s.rows, Next(s, step).rows, step.project, step.recipient,
                    SupersededPairs(step.registry, step.messages), key);
  }

  lemma StepKeepsText(s: System, step: Step, key: Key, text: string)
    requires HasText(s.rows, key, text) && text != "" && !Writes(step, key)
    ensures HasText(Next(s, step).rows, key, text)
  {
    if step.DoObserve? {
      ObservedKeepsText(s, step, key, text);
    } else if step.DoDismiss? {
      DismissExactly(s.rows, step.key, step.reason);
    }
  }

  /** A checkpoint once written lasts through claims, expired leases, failures and supersessions, until it
      is overwritten by a checkpoint, a pause or a marker. */
  lemma {:induction false} CheckpointLasts(s: System, steps: seq<Step>, key: Key, text: string)
    requires HasText(s.rows, key, text) && text != "" && forall step | step in steps :: !Writes(step, key)
    ensures HasText(Run(s, steps).rows, key, text)
  {
    if steps != [] {
      assert steps[|steps| - 1] in steps;
      CheckpointLasts(s, steps[..|steps| - 1], key, text);
      StepKeepsText(Run(s, steps[..|steps| - 1]), steps[|steps| - 1], key, text);
    }
  }
}

/**
 Message receipts: claims with expiring leases, completion, failure, dismissal, supersession and the
 watcher's maintenance, each as one transaction on the receipts table.

 A token drawn from `nextToken` stands for a fresh UUID.  The claim gate and the checks of run, task
 and expiry are arbitrary verdicts handed to `Claim`; `live` is the set of receipts whose pane works.
 */
module Receipts {
  import opened Prelude
  import opened ReceiptKeys

  datatype State = Pending | Claimed | Processed | Failed | Stale | Notified

  datatype Receipt = Receipt(
    state: State,
    owner: Option<string>,
    token: Option<nat>,
    expires: Option<real>,
    reason: Option<string>,
    ackPending: bool,
    checkpoint: string)

  type Table = map<Key, Receipt>

  const CLAIM_TTL: real := 300.0

  function Blank(state: State): Receipt {
    Receipt(state, None, None, None, None, false, "")
  }

  predicate Terminal(state: State) {
    state == Processed || state == Stale
  }

  // ---------------------------------------------------------------- claim

  datatype Verdict = Deliverable | GateRejects(gateReason: string) | TaskStale(staleReason: string)

  /** `state='stale'` unless it is processed; the lease columns stay as they are. */
  function Superseded(rows: Table, key: Key, reason: string, acks: bool): Table {
    if key !in rows then rows[key := Blank(Stale).(reason := Some(reason), ackPending := true)]
    else if rows[key].state == Processed then rows
    else rows[key := rows[key].(state := Stale, reason := Some(reason), ackPending := acks || rows[key].ackPending)]
  }

  predicate LeaseRuns(r: Receipt, now: real) {
    r.state == Claimed && (if r.expires.Some? then r.expires.value else 0.0) > now
  }

  /** Returns the new lease token when the message is delivered. */
  function Claim(rows: Table, key: Key, claimant: string, now: real, ttl: real, verdict: Verdict,
                 checkpoint: string, newToken: nat)
    : (Table, Option<nat>)
  {
    if key in rows && (Terminal(rows[key].state) || LeaseRuns(rows[key], now)) then (rows, None)
    else
      var kept := if key in rows && rows[key].checkpoint != "" then rows[key].checkpoint else checkpoint;
      match verdict
      case GateRejects(reason) => (Superseded(rows, key, reason, false), None)
      case TaskStale(reason) => (rows[key := Receipt(Stale, None, None, None, Some(reason), true, kept)], None)
      case Deliverable =>
        (rows[key := Receipt(Claimed, Some(claimant), Some(newToken), Some(now + ttl), None, false, kept)],
         Some(newToken))
  }

  // ---------------------------------------------------------------- under a lease

  datatype Error = NotClaimed | NotAllowed | Expired | Invalidated

  datatype Done = Completed | AlreadyProcessed | WasStale

  /** The lease checks of complete, fail and checkpoint, on a claimed row. */
  function LeaseError(r: Receipt, token: Option<nat>, now: real): Option<Error> {
    if r.expires.Some? && r.expires.value <= now then Some(Expired)
    else if r.token.Some? && token != r.token then Some(Invalidated)
    else None
  }

  function Complete(rows: Table, key: Key, token: Option<nat>, now: real): (Table, Result<Done, Error>) {
    if key !in rows then (rows, Err(NotClaimed))
    else
      var r := rows[key];
      if r.state == Stale then (rows, Ok(WasStale))
      else if r.state == Processed then (rows, Ok(AlreadyProcessed))
      else if r.state != Claimed then (rows, Err(NotAllowed))
      else
        match LeaseError(r, token, now)
        case Some(e) => (rows, Err(e))
        case None =>
          (rows[key := r.(state := Processed, owner := None, token := None, expires := None, ackPending := true)],
           Ok(Completed))
  }

  function Fail(rows: Table, key: Key, reason: string, token: Option<nat>, now: real): (Table, Result<bool, Error>) {
    if key !in rows || rows[key].state != Claimed then (rows, Ok(false))
    else
      var r := rows[key];
      match LeaseError(r, token, now)
      case Some(e) => (rows, Err(e))
      case None =>
        (rows[key := r.(state := Failed, reason := Some(reason), owner := None, token := None, expires := None)],
         Ok(true))
  }

  function Checkpoint(rows: Table, key: Key, text: string, token: Option<nat>, now: real)
    : (Table, Result<bool, Error>)
  {
    if key !in rows then (rows, Err(NotClaimed))
    else
      var r := rows[key];
      if r.state != Claimed && r.state != Processed then (rows, Err(NotAllowed))
      else if r.state == Claimed && LeaseError(r, token, now).Some? then (rows, Err(LeaseError(r, token, now).value))
      else (rows[key := r.(checkpoint := text)], Ok(true))
  }

  // ---------------------------------------------------------------- without a lease

  function Dismiss(rows: Table, key: Key, reason: string): Table {
    var next := Superseded(rows, key, reason, true);
    if key in next then next[key := next[key].(ackPending := true)] else next
  }

  /** `request_pause` and the prompt markers: a new row in `state`, or another checkpoint text. */
  function Annotate(rows: Table, key: Key, state: State, text: string): Table {
    if key in rows then rows[key := rows[key].(checkpoint := text)] else rows[key := Blank(state).(checkpoint := text)]
  }

  function Acked(rows: Table, key: Key): Table {
    if key in rows then rows[key := rows[key].(ackPending := false)] else rows
  }

  function Renewed(r: Receipt, live: bool, now: real): Receipt {
    if r.state == Claimed && live then r.(expires := Some(now + CLAIM_TTL)) else r
  }

  function Reclaimed(r: Receipt, now: real): Receipt {
    if r.state == Claimed && r.expires.Some? && r.expires.value <= now
    then r.(state := Pending, reason := Some("claim_expired"), owner := None, token := None, expires := None)
    else r
  }

  /** First the leases of working panes are renewed, then what has expired is taken back. */
  function Maintained(rows: Table, live: set<Key>, now: real): Table {
    map key | key in rows :: Reclaimed(Renewed(rows[key], key in live, now), now)
  }

  // ---------------------------------------------------------------- supersession

  /** `supersedes` entries that are not integers are None; `claimsUser` is what the metadata says of its own
      authority. */
  datatype Meta = Meta(run: Option<string>, supersedes: seq<Option<int>>, claimsUser: bool)

  datatype Message = Message(id: int, sender: string, embedded: Option<Meta>)

  /** A row of `message_meta`; `meta` is None when its JSON is no object. */
  datatype Stored = Stored(sender: string, meta: Option<Meta>, trusted: bool)

  /** What `observe_messages` reads besides the batch: stored metadata, and who leads which run. */
  datatype Registry = Registry(stored: map<int, Stored>, leads: set<(string, string)>)

  /** Stored metadata wins; embedded metadata is never trusted. */
  function TrustedMeta(registry: Registry, m: Message): (Option<Meta>, bool) {
    if m.id in registry.stored && registry.stored[m.id].meta.Some?
    then (registry.stored[m.id].meta, registry.stored[m.id].trusted)
    else (m.embedded, false)
  }

  /** `{int(message["id"]): message for message in messages}`: the last one of an id counts. */
  function Batch(messages: seq<Message>): map<int, Message> {
    if messages == [] then map[]
    else
      var m := messages[|messages| - 1];
      Batch(messages[..|messages| - 1])[m.id := m]
  }

  function OldSender(registry: Registry, batch: map<int, Message>, id: int): Option<string> {
    if id in batch then Some(batch[id].sender)
    else if id in registry.stored then Some(registry.stored[id].sender)
    else None
  }

  predicate Authorised(registry: Registry, batch: map<int, Message>, m: Message, id: int) {
    var (meta, trusted) := TrustedMeta(registry, m);
    || trusted
    || (meta.Some? && meta.value.run.Some? && meta.value.run.value != ""
        && (meta.value.run.value, m.sender) in registry.leads)
    || OldSender(registry, batch, id) == Some(m.sender)
  }

  function Targets(registry: Registry, m: Message): seq<Option<int>> {
    var meta := TrustedMeta(registry, m).0;
    if meta.Some? then meta.value.supersedes else []
  }

  /** The number of the superseding message stands for the text `superseded_by:<id>`. */
  function SupersededBy(id: int): string {
    "superseded_by:" + Decimal(id)
  }

  /** One message's list, first `n` entries. */
  function ObserveTargets(rows: Table, project: string, recipient: string, registry: Registry, batch: map<int, Message>,
                          m: Message, n: nat)
    : Table
    requires n <= |Targets(registry, m)|
  {
    if n == 0 then rows
    else
      var before := ObserveTargets(rows, project, recipient, registry, batch, m, n - 1);
      var target := Targets(registry, m)[n - 1];
      if target.Some? && Authorised(registry, batch, m, target.value)
      then Superseded(before, Key(project, recipient, target.value), SupersededBy(m.id), true)
      else before
  }

  /** The first `n` messages of the batch. */
  function ObserveFirst(rows: Table, project: string, recipient: string, registry: Registry, messages: seq<Message>,
                        n: nat)
    : Table
    requires n <= |messages|
  {
    if n == 0 then rows
    else
      var m := messages[n - 1];
      ObserveTargets(ObserveFirst(rows, project, recipient, registry, messages, n - 1),
                     project, recipient, registry, Batch(messages), m, |Targets(registry, m)|)
  }

  function Observed(rows: Table, project: string, recipient: string, registry: Registry, messages: seq<Message>)
    : Table
  {
    ObserveFirst(rows, project, recipient, registry, messages, |messages|)
  }
}

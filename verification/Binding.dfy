/**
 The leader binding store: rows, migrations and the control-event outbox as values, and every
 transaction as one atomic step.  `BindingStore.dfy` has the mutable tables that perform them.

 An id drawn from `nextId` stands for a fresh UUID; timestamps are not part of the rows.
 */
module Binding {
  import opened Prelude

  datatype Kind = User | Team | Channel

  datatype Scope = Scope(issuer: string, kind: Kind, id: string)

  datatype Key = Key(scope: Scope, mail: string)

  datatype RowState = Active | Previous | Retired

  datatype Drain = Pending | Draining | Drained | Degraded

  datatype Route = Route(
    agentName: Option<string>,
    agentKind: Option<string>,
    session: Option<string>,
    pane: Option<string>,
    selector: Option<string>)

  datatype Counters = Counters(remaining: nat, pending: nat, claimed: nat, ackPending: nat)

  const ZERO := Counters(0, 0, 0, 0)

  datatype Row = Row(
    bindingId: nat,
    previousMail: Option<string>,
    drain: Option<Drain>,
    route: Route,
    version: int,
    state: RowState,
    reason: Option<string>,
    epoch: int,
    migration: Option<nat>,
    revision: nat,
    counters: Counters)

  datatype Migration = Migration(id: nat, scope: Scope, fromBinding: Option<nat>, toBinding: nat, epoch: int)

  datatype CounterUpdate =
    CounterUpdate(remaining: Option<int>, pending: Option<int>, claimed: Option<int>, ackPending: Option<int>)

  datatype Payload =
    | BindingChanged(mail: string, previousMail: Option<string>, epoch: int, selector: Option<string>)
    | BindingUpdated(mail: string, epoch: int, selector: Option<string>)
    | DrainStateChanged(mail: string, drain: Drain, reason: Option<string>, counters: CounterUpdate)
    | BindingRetired(mail: string, reason: Option<string>)

  /** The sequence number of an event is its position in the outbox. */
  datatype ControlEvent = ControlEvent(
    id: nat,
    scope: Scope,
    version: int,
    migration: Option<nat>,
    payload: Payload,
    fannedOut: bool)

  datatype Store = Store(
    rows: map<Key, Row>,
    migrations: seq<Migration>,
    events: seq<ControlEvent>,
    nextId: nat)

  const EMPTY := Store(map[], [], [], 0)

  datatype Error = Invalid | Stale | Undrained | IllegalDrain | NotRetirable

  // ---------------------------------------------------------------- argument checks

  predicate ValidScope(sc: Scope) {
    0 < |sc.issuer| <= 128 && 0 < |sc.id| <= 256
  }

  predicate ValidMail(mail: string) {
    0 < |mail| <= 128 && forall i | 0 <= i < |mail| :: mail[i] as int >= 32 && mail[i] as int != 127
  }

  predicate ValidSelector(route: Route) {
    route.selector.Some? ==> |route.selector.value| <= 256
  }

  predicate ValidCount(c: Option<int>) {
    c.Some? ==> c.value >= 0
  }

  predicate ValidCounters(u: CounterUpdate) {
    ValidCount(u.remaining) && ValidCount(u.pending) && ValidCount(u.claimed) && ValidCount(u.ackPending)
  }

  function Count(current: nat, given: Option<int>): nat
    requires ValidCount(given)
  {
    if given.Some? then given.value else current
  }

  function Counted(c: Counters, u: CounterUpdate): Counters
    requires ValidCounters(u)
  {
    Counters(Count(c.remaining, u.remaining), Count(c.pending, u.pending),
             Count(c.claimed, u.claimed), Count(c.ackPending, u.ackPending))
  }

  // ---------------------------------------------------------------- queries

  predicate HasState(rows: map<Key, Row>, sc: Scope, mail: string, state: RowState) {
    Key(sc, mail) in rows && rows[Key(sc, mail)].state == state
  }

  /** `SELECT ... state='active'`: a unique index allows one per scope. */
  ghost function ActiveMail(rows: map<Key, Row>, sc: Scope): (r: Option<string>)
    ensures r.Some? ==> HasState(rows, sc, r.value, Active)
    ensures r.None? ==> forall mail :: !HasState(rows, sc, mail, Active)
  {
    if mail :| HasState(rows, sc, mail, Active) then Some(mail) else None
  }

  /** `SELECT ... state='previous'` followed by `fetchone()`: any one of the matching rows. */
  ghost predicate Fetched(rows: map<Key, Row>, sc: Scope, pick: Option<string>) {
    match pick
    case Some(mail) => HasState(rows, sc, mail, Previous)
    case None => forall mail :: !HasState(rows, sc, mail, Previous)
  }

  // ---------------------------------------------------------------- bind_leader

  function Appended(events: seq<ControlEvent>, id: nat, sc: Scope, version: int, migration: Option<nat>,
                    payload: Payload)
    : seq<ControlEvent>
  {
    events + [ControlEvent(id, sc, version, migration, payload, false)]
  }

  predicate BindArgumentsValid(sc: Scope, mail: string, route: Route, expected: Option<int>) {
    ValidScope(sc) && ValidMail(mail) && ValidSelector(route) && expected.Some?
  }

  function VersionOf(rows: map<Key, Row>, sc: Scope, active: Option<string>): int {
    if active.Some? && Key(sc, active.value) in rows then rows[Key(sc, active.value)].version else 0
  }

  function EpochOf(rows: map<Key, Row>, sc: Scope, active: Option<string>): int {
    if active.Some? && Key(sc, active.value) in rows then rows[Key(sc, active.value)].epoch else 0
  }

  /** The route of the active name changes in place: next version, no migration, no previous row. */
  function Reroute(s: Store, sc: Scope, mail: string, route: Route): Store
    requires Key(sc, mail) in s.rows
  {
    var was := s.rows[Key(sc, mail)];
    var row := was.(route := route, version := was.version + 1, epoch := was.epoch + 1);
    Store(s.rows[Key(sc, mail) := row], s.migrations,
          Appended(s.events, s.nextId, sc, row.version, None, BindingUpdated(mail, row.epoch, route.selector)),
          s.nextId + 1)
  }

  /** The active row steps down and is tied to the migration that replaces it. */
  function SteppedDown(row: Row, migration: nat): Row {
    row.(state := Previous,
         drain := if row.drain.Some? then row.drain else Some(Draining),
         reason := None,
         migration := Some(migration))
  }

  function RowsWithout(rows: map<Key, Row>, sc: Scope, active: Option<string>, migration: nat): map<Key, Row> {
    if active.Some? && Key(sc, active.value) in rows
    then rows[Key(sc, active.value) := SteppedDown(rows[Key(sc, active.value)], migration)]
    else rows
  }

  /** Another name takes over; a row that exists keeps its binding id. */
  function TakeOver(s: Store, sc: Scope, active: Option<string>, mail: string, route: Route): Store {
    var version := VersionOf(s.rows, sc, active) + 1;
    var epoch := EpochOf(s.rows, sc, active) + 1;
    var migration := s.nextId;
    var rows := RowsWithout(s.rows, sc, active, migration);
    var key := Key(sc, mail);
    var bindingId := if key in rows then rows[key].bindingId else s.nextId + 2;
    var row := Row(bindingId, active, None, route, version, Active, None, epoch, Some(migration), 0, ZERO);
    var from := if active.Some? && Key(sc, active.value) in s.rows
                then Some(s.rows[Key(sc, active.value)].bindingId) else None;
    Store(rows[key := row],
          s.migrations + [Migration(migration, sc, from, bindingId, epoch)],
          Appended(s.events, s.nextId + 1, sc, version, Some(migration),
                   BindingChanged(mail, active, epoch, route.selector)),
          s.nextId + 3)
  }

  predicate GateOpen(rows: map<Key, Row>, sc: Scope, pick: Option<string>) {
    pick.Some? && Key(sc, pick.value) in rows ==> rows[Key(sc, pick.value)].drain in {None, Some(Drained)}
  }

  /** `pick` is the previous row that the gate happened to read. */
  ghost function Bind(s: Store, sc: Scope, mail: string, route: Route, expected: Option<int>, pick: Option<string>)
    : (Store, Result<Row, Error>)
  {
    if !BindArgumentsValid(sc, mail, route, expected) then (s, Err(Invalid))
    else
      var active := ActiveMail(s.rows, sc);
      if VersionOf(s.rows, sc, active) != expected.value then (s, Err(Stale))
      else if active == Some(mail) then
        if s.rows[Key(sc, mail)].route == route then (s, Ok(s.rows[Key(sc, mail)]))
        else
          var t := Reroute(s, sc, mail, route);
          (t, Ok(t.rows[Key(sc, mail)]))
      else if !GateOpen(s.rows, sc, pick) then (s, Err(Undrained))
      else
        var t := TakeOver(s, sc, active, mail, route);
        (t, Ok(t.rows[Key(sc, mail)]))
  }

  // ---------------------------------------------------------------- drain and retire

  /** What a worker read from a previous row and must present again. */
  datatype Token = Token(version: int, migration: Option<nat>, drain: Drain, revision: nat)

  function DrainOf(row: Row): Drain {
    if row.drain.Some? then row.drain.value else Pending
  }

  function TokenOf(row: Row): Token {
    Token(row.version, row.migration, DrainOf(row), row.revision)
  }

  function Forward(from: Drain): set<Drain> {
    match from
    case Pending => {Pending, Draining, Drained}
    case Draining => {Draining, Drained, Degraded}
    case Degraded => {Degraded, Draining}
    case Drained => {Drained}
  }

  function DrainedTo(s: Store, key: Key, next: Drain, counters: CounterUpdate, reason: Option<string>): Store
    requires key in s.rows && ValidCounters(counters)
  {
    var was := s.rows[key];
    var row := was.(drain := Some(next), reason := reason, revision := was.revision + 1,
                    counters := Counted(was.counters, counters));
    Store(s.rows[key := row], s.migrations,
          Appended(s.events, s.nextId, key.scope, was.version, was.migration,
                   DrainStateChanged(key.mail, next, reason, counters)),
          s.nextId + 1)
  }

  /** `expected` is None when any of the four compare-and-swap arguments is missing. */
  function MarkPrevious(s: Store, key: Key, next: Drain, expected: Option<Token>, counters: CounterUpdate,
                        reason: Option<string>)
    : (Store, Result<bool, Error>)
  {
    if !ValidScope(key.scope) || !ValidMail(key.mail) || expected.None? || !ValidCounters(counters)
    then (s, Err(Invalid))
    else if !HasState(s.rows, key.scope, key.mail, Previous) then (s, Ok(false))
    else if TokenOf(s.rows[key]) != expected.value then (s, Err(Stale))
    else if next !in Forward(DrainOf(s.rows[key])) then (s, Err(IllegalDrain))
    else (DrainedTo(s, key, next, counters, reason), Ok(true))
  }

  function RetiredFrom(s: Store, key: Key, reason: Option<string>): Store
    requires key in s.rows
  {
    var was := s.rows[key];
    var row := was.(state := Retired, drain := Some(Drained),
                    reason := if reason.Some? then reason else was.reason);
    Store(s.rows[key := row], s.migrations,
          Appended(s.events, s.nextId, key.scope, was.version, was.migration, BindingRetired(key.mail, reason)),
          s.nextId + 1)
  }

  function Retire(s: Store, key: Key, expected: Option<Token>, reason: Option<string>): (Store, Result<bool, Error>) {
    if !ValidScope(key.scope) || !ValidMail(key.mail) || expected.None? then (s, Err(Invalid))
    else if !HasState(s.rows, key.scope, key.mail, Previous) then (s, Ok(false))
    else if DrainOf(s.rows[key]) != Drained || s.rows[key].counters != ZERO then (s, Err(NotRetirable))
    else if TokenOf(s.rows[key]) != expected.value then (s, Err(Stale))
    else (RetiredFrom(s, key, reason), Ok(true))
  }

  /** The wiring drops the selector of a row it has just retired. */
  function ClearSelector(s: Store, key: Key): Store {
    if HasState(s.rows, key.scope, key.mail, Retired)
    then s.(rows := s.rows[key := s.rows[key].(route := s.rows[key].route.(selector := None))])
    else s
  }

  // ---------------------------------------------------------------- outbox

  predicate Unsent(e: ControlEvent, issuer: string) {
    e.scope.issuer == issuer && !e.fannedOut
  }

  function UnsentEvents(events: seq<ControlEvent>, issuer: string): seq<ControlEvent> {
    if events == [] then []
    else if Unsent(events[0], issuer) then [events[0]] + UnsentEvents(events[1..], issuer)
    else UnsentEvents(events[1..], issuer)
  }

  function Clamped(limit: int): nat {
    if limit < 1 then 1 else if limit > 1000 then 1000 else limit
  }

  /** What a reader gets: the first unsent events, at most the clamped limit. */
  function Page(events: seq<ControlEvent>, issuer: string, limit: int): seq<ControlEvent> {
    var unsent := UnsentEvents(events, issuer);
    if |unsent| <= Clamped(limit) then unsent else unsent[..Clamped(limit)]
  }

  function Sent(e: ControlEvent, issuer: string, id: nat): ControlEvent {
    if e.scope.issuer == issuer && e.id == id then e.(fannedOut := true) else e
  }

  function MarkSent(events: seq<ControlEvent>, issuer: string, id: nat): seq<ControlEvent> {
    seq(|events|, i requires 0 <= i < |events| => Sent(events[i], issuer, id))
  }

  function MarkFannedOut(s: Store, issuer: string, id: nat): Store {
    s.(events := MarkSent(s.events, issuer, id))
  }
}

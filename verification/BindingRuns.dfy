/** What every run of transactions on the binding store keeps. */
module BindingRuns {
  import opened Prelude
  import opened Binding

  datatype Step =
    | DoBind(sc: Scope, mail: string, route: Route, version: Option<int>, pick: Option<string>)
    | DoDrain(key: Key, next: Drain, token: Option<Token>, counters: CounterUpdate, reason: Option<string>)
    | DoRetire(key: Key, token: Option<Token>, reason: Option<string>)
    | DoClear(key: Key)
    | DoMark(issuer: string, id: nat)

  /** A bind whose `pick` no query could return is not a step. */
  ghost function Next(s: Store, step: Step): Store {
    match step
    case DoBind(sc, mail, route, version, pick) =>
      if Fetched(s.rows, sc, pick) then Bind(s, sc, mail, route, version, pick).0 else s
    case DoDrain(key, next, token, counters, reason) => MarkPrevious(s, key, next, token, counters, reason).0
    case DoRetire(key, token, reason) => Retire(s, key, token, reason).0
    case DoClear(key) => ClearSelector(s, key)
    case DoMark(issuer, id) => MarkFannedOut(s, issuer, id)
  }

  ghost function Run(s: Store, steps: seq<Step>): Store {
    if steps == [] then s else Next(Run(s, steps[..|steps| - 1]), steps[|steps| - 1])
  }

  // ---------------------------------------------------------------- what the outbox says

  /** What a reader of the outbox knows of a row. */
  datatype Shape = Shape(state: RowState, drain: Option<Drain>, version: int)

  function ShapeOf(row: Row): Shape {
    Shape(row.state, row.drain, row.version)
  }

  /** Apply one event, from its own fields only. */
  ghost function Apply(known: map<Key, Shape>, e: ControlEvent): map<Key, Shape> {
    var key := Key(e.scope, e.payload.mail);
    match e.payload
    case BindingChanged(mail, previousMail, _, _) =>
      var stepped :=
        if previousMail.Some? && Key(e.scope, previousMail.value) in known
        then
          var p := Key(e.scope, previousMail.value);
          known[p := known[p].(state := Previous, drain := Some(Draining))]
        else known;
      stepped[key := Shape(Active, None, e.version)]
    case BindingUpdated(mail, _, _) => if key in known then known[key := known[key].(version := e.version)] else known
    case DrainStateChanged(mail, drain, _, _) =>
      if key in known then known[key := known[key].(drain := Some(drain))] else known
    case BindingRetired(mail, _) =>
      if key in known then known[key := known[key].(state := Retired, drain := Some(Drained))] else known
  }

  ghost function Fold(events: seq<ControlEvent>): map<Key, Shape> {
    if events == [] then map[] else Apply(Fold(events[..|events| - 1]), events[|events| - 1])
  }

  ghost predicate OutboxComplete(s: Store) {
    && Fold(s.events).Keys == s.rows.Keys
    && forall key | key in s.rows :: Fold(s.events)[key] == ShapeOf(s.rows[key])
  }

  // ---------------------------------------------------------------- what each scope keeps

  ghost predicate RowOk(row: Row, top: int) {
    && 1 <= row.version <= top
    && row.epoch == row.version
    && match row.state
       case Active => row.version == top && row.drain.None? && row.revision == 0 && row.counters == ZERO
       case Previous => row.version < top && row.drain.Some? && row.migration.Some?
       case Retired => row.version < top && row.drain == Some(Drained) && row.counters == ZERO
  }

  ghost predicate RowsOk(rows: map<Key, Row>, sc: Scope, active: string) {
    && HasState(rows, sc, active, Active)
    && (forall key | key in rows && key.scope == sc :: RowOk(rows[key], rows[Key(sc, active)].version))
    && (forall k, l | k in rows && l in rows && k.scope == sc && l.scope == sc && k != l ::
        rows[k].version != rows[l].version)
  }

  ghost predicate Unbound(rows: map<Key, Row>, sc: Scope) {
    forall key | key in rows :: key.scope != sc
  }

  ghost function Assigned(e: ControlEvent, sc: Scope): nat {
    if e.scope == sc && (e.payload.BindingChanged? || e.payload.BindingUpdated?) then 1 else 0
  }

  /** The number of events that assigned a version. */
  ghost function Versions(events: seq<ControlEvent>, sc: Scope): nat {
    if events == [] then 0
    else
      var e := events[|events| - 1];
      Versions(events[..|events| - 1], sc) + Assigned(e, sc)
  }

  /** The binding that the last migration of the scope led to. */
  ghost function Tip(migrations: seq<Migration>, sc: Scope): Option<nat> {
    if migrations == [] then None
    else
      var m := migrations[|migrations| - 1];
      if m.scope == sc then Some(m.toBinding) else Tip(migrations[..|migrations| - 1], sc)
  }

  /** Each migration starts where the one before it (of the same scope) ended. */
  ghost predicate Chained(migrations: seq<Migration>) {
    migrations == [] ||
    var front, m := migrations[..|migrations| - 1], migrations[|migrations| - 1];
    Chained(front) && m.fromBinding == Tip(front, m.scope)
  }

  ghost predicate ScopeOk(s: Store, sc: Scope) {
    if Unbound(s.rows, sc) then Versions(s.events, sc) == 0 && Tip(s.migrations, sc) == None
    else
      exists active ::
        && RowsOk(s.rows, sc, active)
        && Versions(s.events, sc) == s.rows[Key(sc, active)].version
        && Tip(s.migrations, sc) == Some(s.rows[Key(sc, active)].bindingId)
  }

  ghost predicate IdsOk(s: Store) {
    && (forall i | 0 <= i < |s.events| :: s.events[i].id < s.nextId)
    && (forall i, j | 0 <= i < j < |s.events| :: s.events[i].id < s.events[j].id)
  }

  ghost predicate Inv(s: Store) {
    && (forall sc :: ScopeOk(s, sc))
    && Chained(s.migrations)
    && OutboxComplete(s)
    && IdsOk(s)
  }

  // ---------------------------------------------------------------- one step

  lemma {:induction false} EventAppended(events: seq<ControlEvent>, e: ControlEvent)
    ensures Fold(events + [e]) == Apply(Fold(events), e)
    ensures forall sc :: Versions(events + [e], sc) == Versions(events, sc) + Assigned(e, sc)
  {
    assert (events + [e])[..|events|] == events;
  }

  lemma {:induction false} MigrationAppended(migrations: seq<Migration>, m: Migration)
    ensures forall sc :: Tip(migrations + [m], sc) == if m.scope == sc then Some(m.toBinding) else Tip(migrations, sc)
    ensures Chained(migrations + [m]) <==> Chained(migrations) && m.fromBinding == Tip(migrations, m.scope)
  {
    assert (migrations + [m])[..|migrations|] == migrations;
  }

  lemma ActiveIsUnique(s: Store, sc: Scope)
    requires ScopeOk(s, sc)
    ensures var active := ActiveMail(s.rows, sc);
            if active.None?
            then Unbound(s.rows, sc) && VersionOf(s.rows, sc, active) == 0 && EpochOf(s.rows, sc, active) == 0
            else
              && RowsOk(s.rows, sc, active.value)
              && Versions(s.events, sc) == s.rows[Key(sc, active.value)].version
              && Tip(s.migrations, sc) == Some(s.rows[Key(sc, active.value)].bindingId)
  {
    var active := ActiveMail(s.rows, sc);
    if !Unbound(s.rows, sc) {
      var a :| && RowsOk(s.rows, sc, a)
               && Versions(s.events, sc) == s.rows[Key(sc, a)].version
               && Tip(s.migrations, sc) == Some(s.rows[Key(sc, a)].bindingId);
      assert HasState(s.rows, sc, a, Active);
      assert active.Some? && Key(sc, active.value) in s.rows;
    }
  }

  /** A step in another scope is not seen here. */
  lemma OtherScope(s: Store, t: Store, sc: Scope)
    requires ScopeOk(s, sc)
    requires forall key: Key | key.scope == sc ::
               (key in s.rows <==> key in t.rows) && (key in s.rows ==> s.rows[key] == t.rows[key])
    requires Versions(t.events, sc) == Versions(s.events, sc) && Tip(t.migrations, sc) == Tip(s.migrations, sc)
    ensures ScopeOk(t, sc)
  {
    if !Unbound(s.rows, sc) {
      var a :| && RowsOk(s.rows, sc, a)
               && Versions(s.events, sc) == s.rows[Key(sc, a)].version
               && Tip(s.migrations, sc) == Some(s.rows[Key(sc, a)].bindingId);
      assert RowsOk(t.rows, sc, a);
    }
  }

  /** Replace one row that is not active; its version, epoch and binding id stay. */
  lemma RowEdited(s: Store, t: Store, key: Key, row: Row)
    requires ScopeOk(s, key.scope) && key in s.rows && !s.rows[key].state.Active? && !row.state.Active?
    requires t.rows == s.rows[key := row]
    requires row.version == s.rows[key].version && row.epoch == row.version
    requires row.state.Previous? ==> row.drain.Some? && row.migration.Some?
    requires row.state.Retired? ==> row.drain == Some(Drained) && row.counters == ZERO
    requires Versions(t.events, key.scope) == Versions(s.events, key.scope)
    requires Tip(t.migrations, key.scope) == Tip(s.migrations, key.scope)
    ensures ScopeOk(t, key.scope)
  {
    var sc := key.scope;
    assert !Unbound(s.rows, sc) && !Unbound(t.rows, sc);
    var a :| && RowsOk(s.rows, sc, a)
             && Versions(s.events, sc) == s.rows[Key(sc, a)].version
             && Tip(s.migrations, sc) == Some(s.rows[Key(sc, a)].bindingId);
    assert key != Key(sc, a);
    assert RowsOk(t.rows, sc, a);
  }

  lemma RerouteRows(s: Store, sc: Scope, mail: string, route: Route)
    requires RowsOk(s.rows, sc, mail)
    ensures RowsOk(Reroute(s, sc, mail, route).rows, sc, mail)
  {
  }

  lemma RerouteOutbox(s: Store, sc: Scope, mail: string, route: Route)
    requires OutboxComplete(s) && Key(sc, mail) in s.rows
    ensures OutboxComplete(Reroute(s, sc, mail, route))
  {
    EventAppended(s.events, Reroute(s, sc, mail, route).events[|s.events|]);
  }

  lemma RerouteScopes(s: Store, sc: Scope, mail: string, route: Route)
    requires (forall other :: ScopeOk(s, other)) && ActiveMail(s.rows, sc) == Some(mail)
    ensures var t := Reroute(s, sc, mail, route); forall other :: ScopeOk(t, other)
  {
    var t := Reroute(s, sc, mail, route);
    EventAppended(s.events, t.events[|s.events|]);
    ActiveIsUnique(s, sc);
    RerouteRows(s, sc, mail, route);
    assert ScopeOk(t, sc) by { assert Key(sc, mail) in t.rows; }
    forall other ensures ScopeOk(t, other) {
      if other != sc { OtherScope(s, t, other); }
    }
  }

  lemma RerouteKeeps(s: Store, sc: Scope, mail: string, route: Route)
    requires Inv(s) && ActiveMail(s.rows, sc) == Some(mail)
    ensures Inv(Reroute(s, sc, mail, route))
  {
    RerouteOutbox(s, sc, mail, route);
    RerouteScopes(s, sc, mail, route);
  }

  /** All versions of the scope lie below the one that the new active row gets. */
  lemma TakeOverRows(s: Store, sc: Scope, active: Option<string>, mail: string, route: Route)
    requires active != Some(mail)
    requires if active.None? then Unbound(s.rows, sc) else RowsOk(s.rows, sc, active.value)
    ensures RowsOk(TakeOver(s, sc, active, mail, route).rows, sc, mail)
  {
    var t := TakeOver(s, sc, active, mail, route);
    var key := Key(sc, mail);
    assert t.rows[key].state.Active?;
    forall k | k in t.rows && k.scope == sc ensures RowOk(t.rows[k], t.rows[key].version) {
      if k != key { assert k in s.rows; }
    }
    forall k, l | k in t.rows && l in t.rows && k.scope == sc && l.scope == sc && k != l
      ensures t.rows[k].version != t.rows[l].version
    {
      if k != key { assert k in s.rows; }
      if l != key { assert l in s.rows; }
    }
  }

  lemma TakeOverOutbox(s: Store, sc: Scope, active: Option<string>, mail: string, route: Route)
    requires OutboxComplete(s) && active != Some(mail)
    requires active.Some? ==> Key(sc, active.value) in s.rows && s.rows[Key(sc, active.value)].drain.None?
    ensures OutboxComplete(TakeOver(s, sc, active, mail, route))
  {
    var t := TakeOver(s, sc, active, mail, route);
    EventAppended(s.events, t.events[|s.events|]);
  }

  lemma TakeOverKeeps(s: Store, sc: Scope, mail: string, route: Route)
    requires Inv(s) && ActiveMail(s.rows, sc) != Some(mail)
    ensures Inv(TakeOver(s, sc, ActiveMail(s.rows, sc), mail, route))
  {
    var active := ActiveMail(s.rows, sc);
    var t := TakeOver(s, sc, active, mail, route);
    ActiveIsUnique(s, sc);
    TakeOverRows(s, sc, active, mail, route);
    TakeOverOutbox(s, sc, active, mail, route);
    TakeOverScopes(s, sc, active, mail, route);
  }

  lemma TakeOverScopes(s: Store, sc: Scope, active: Option<string>, mail: string, route: Route)
    requires (forall other :: ScopeOk(s, other)) && Chained(s.migrations)
    requires active == ActiveMail(s.rows, sc) && active != Some(mail)
    ensures var t := TakeOver(s, sc, active, mail, route); (forall other :: ScopeOk(t, other)) && Chained(t.migrations)
  {
    var t := TakeOver(s, sc, active, mail, route);
    ActiveIsUnique(s, sc);
    EventAppended(s.events, t.events[|s.events|]);
    MigrationAppended(s.migrations, t.migrations[|s.migrations|]);
    TakeOverRows(s, sc, active, mail, route);
    assert ScopeOk(t, sc) by { assert Key(sc, mail) in t.rows; }
    forall other ensures ScopeOk(t, other) {
      if other != sc { OtherScope(s, t, other); }
    }
  }

  /** An event about one known row, with that row replaced by what the event says. */
  lemma EditOutbox(s: Store, t: Store, key: Key, row: Row, e: ControlEvent)
    requires OutboxComplete(s) && key in s.rows && t.rows == s.rows[key := row] && t.events == s.events + [e]
    requires Key(e.scope, e.payload.mail) == key && !e.payload.BindingChanged?
    requires forall known | key in known && known[key] == ShapeOf(s.rows[key]) ::
             Apply(known, e) == known[key := ShapeOf(row)]
    ensures OutboxComplete(t)
  {
    EventAppended(s.events, e);
  }

  /** A transaction that edits one row which is not active and reports it. */
  lemma EditScopes(s: Store, t: Store, key: Key, row: Row)
    requires (forall other :: ScopeOk(s, other)) && key in s.rows && !s.rows[key].state.Active? && !row.state.Active?
    requires t.rows == s.rows[key := row] && t.migrations == s.migrations
    requires |t.events| == |s.events| + 1 && t.events[..|s.events|] == s.events
    requires var e := t.events[|s.events|]; e.payload.DrainStateChanged? || e.payload.BindingRetired?
    requires row.version == s.rows[key].version && row.epoch == row.version
    requires row.state.Previous? ==> row.drain.Some? && row.migration.Some?
    requires row.state.Retired? ==> row.drain == Some(Drained) && row.counters == ZERO
    ensures forall other :: ScopeOk(t, other)
  {
    assert t.events == s.events + [t.events[|s.events|]];
    EventAppended(s.events, t.events[|s.events|]);
    RowEdited(s, t, key, row);
    forall other ensures ScopeOk(t, other) {
      if other != key.scope { OtherScope(s, t, other); }
    }
  }

  lemma DrainKeeps(s: Store, key: Key, next: Drain, counters: CounterUpdate, reason: Option<string>)
    requires Inv(s) && HasState(s.rows, key.scope, key.mail, Previous) && ValidCounters(counters)
    ensures Inv(DrainedTo(s, key, next, counters, reason))
  {
    var t := DrainedTo(s, key, next, counters, reason);
    PreviousFacts(s, key);
    EditOutbox(s, t, key, t.rows[key], t.events[|s.events|]);
    EditScopes(s, t, key, t.rows[key]);
  }

  lemma RetireKeeps(s: Store, key: Key, reason: Option<string>)
    requires Inv(s) && HasState(s.rows, key.scope, key.mail, Previous)
    requires s.rows[key].counters == ZERO
    ensures Inv(RetiredFrom(s, key, reason))
  {
    var t := RetiredFrom(s, key, reason);
    PreviousFacts(s, key);
    EditOutbox(s, t, key, t.rows[key], t.events[|s.events|]);
    EditScopes(s, t, key, t.rows[key]);
  }

  lemma PreviousFacts(s: Store, key: Key)
    requires ScopeOk(s, key.scope) && key in s.rows
    ensures s.rows[key].epoch == s.rows[key].version
    ensures s.rows[key].state.Previous? ==> s.rows[key].drain.Some? && s.rows[key].migration.Some?
    ensures s.rows[key].state.Retired? ==> s.rows[key].drain == Some(Drained) && s.rows[key].counters == ZERO
  {
    ActiveIsUnique(s, key.scope);
  }

  lemma ClearKeeps(s: Store, key: Key)
    requires Inv(s)
    ensures Inv(ClearSelector(s, key))
  {
    var t := ClearSelector(s, key);
    if HasState(s.rows, key.scope, key.mail, Retired) {
      PreviousFacts(s, key);
      RowEdited(s, t, key, t.rows[key]);
      forall other ensures ScopeOk(t, other) {
        if other != key.scope { OtherScope(s, t, other); }
      }
    }
  }

  /** The flag is not part of what the outbox says. */
  lemma {:induction false} FlagsDoNotMatter(a: seq<ControlEvent>, b: seq<ControlEvent>)
    requires |a| == |b| && forall i | 0 <= i < |a| :: b[i].(fannedOut := false) == a[i].(fannedOut := false)
    ensures Fold(a) == Fold(b)
    ensures forall sc :: Versions(a, sc) == Versions(b, sc)
  {
    if a != [] {
      FlagsDoNotMatter(a[..|a| - 1], b[..|b| - 1]);
      var x, y := a[|a| - 1], b[|b| - 1];
      assert y == x.(fannedOut := y.fannedOut);
    }
  }

  lemma MarkKeeps(s: Store, issuer: string, id: nat)
    requires Inv(s)
    ensures Inv(MarkFannedOut(s, issuer, id))
  {
    var t := MarkFannedOut(s, issuer, id);
    FlagsDoNotMatter(s.events, t.events);
    forall sc ensures ScopeOk(t, sc) { OtherScope(s, t, sc); }
  }

  lemma NextKeeps(s: Store, step: Step)
    requires Inv(s)
    ensures Inv(Next(s, step))
  {
    match step
    case DoBind(sc, mail, route, version, pick) =>
      if Next(s, step) != s {
        if ActiveMail(s.rows, sc) == Some(mail) {
          RerouteKeeps(s, sc, mail, route);
        } else {
          TakeOverKeeps(s, sc, mail, route);
        }
      }
    case DoDrain(key, next, token, counters, reason) =>
      if Next(s, step) != s { DrainKeeps(s, key, next, counters, reason); }
    case DoRetire(key, token, reason) =>
      if Next(s, step) != s { RetireKeeps(s, key, reason); }
    case DoClear(key) => ClearKeeps(s, key);
    case DoMark(issuer, id) => MarkKeeps(s, issuer, id);
  }

  lemma {:induction false} RunKeeps(s: Store, steps: seq<Step>)
    requires Inv(s)
    ensures Inv(Run(s, steps))
  {
    if steps != [] {
      RunKeeps(s, steps[..|steps| - 1]);
      NextKeeps(Run(s, steps[..|steps| - 1]), steps[|steps| - 1]);
    }
  }

  lemma Reachable(steps: seq<Step>)
    ensures Inv(Run(EMPTY, steps))
  {
    assert Inv(EMPTY);
    RunKeeps(EMPTY, steps);
  }
}

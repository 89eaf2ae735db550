/** The tables of the binding store; each method is one committed or rolled back transaction. */
module BindingStore {
  import opened Prelude
  import opened Binding
  import opened BindingRuns

  class LeaderBindings {
    var rows: map<Key, Row>
    var migrations: seq<Migration>
    var events: seq<ControlEvent>
    var nextId: nat

    ghost function View(): Store
      reads this
    {
      Store(rows, migrations, events, nextId)
    }

    ghost predicate Valid()
      reads this
    {
      Inv(View())
    }

    constructor ()
      ensures Valid() && View() == EMPTY
    {
      rows, migrations, events, nextId := map[], [], [], 0;
    }

    method QueryActive(sc: Scope) returns (active: Option<string>)
      requires Valid()
      ensures active == ActiveMail(rows, sc)
    {
      ActiveIsUnique(View(), sc);
      if key :| key in rows && key.scope == sc && rows[key].state.Active? {
        assert HasState(rows, sc, key.mail, Active);
        active := Some(key.mail);
      } else {
        active := None;
      }
    }

    /** Any previous row of the scope. */
    method FetchPrevious(sc: Scope) returns (pick: Option<string>)
      ensures Fetched(rows, sc, pick)
    {
      if key :| key in rows && key.scope == sc && rows[key].state.Previous? {
        assert key == Key(sc, key.mail);
        pick := Some(key.mail);
      } else {
        pick := None;
      }
    }

    /** `pick` tells which previous row the gate read. */
    method BindLeader(sc: Scope, mail: string, route: Route, expected: Option<int>)
      returns (r: Result<Row, Error>, pick: Option<string>)
      requires Valid()
      modifies this
      ensures Valid() && Fetched(old(rows), sc, pick)
      ensures (View(), r) == Bind(old(View()), sc, mail, route, expected, pick)
    {
      ghost var start := View();
      pick := FetchPrevious(sc);
      NextKeeps(start, DoBind(sc, mail, route, expected, pick));
      if !BindArgumentsValid(sc, mail, route, expected) {
        return Err(Invalid), pick;
      }
      var active := QueryActive(sc);
      ActiveIsUnique(start, sc);
      var key := Key(sc, mail);
      var version := if active.Some? then rows[Key(sc, active.value)].version else 0;
      if version != expected.value {
        return Err(Stale), pick;
      }
      if active == Some(mail) {
        if rows[key].route == route {
          return Ok(rows[key]), pick;
        }
        r := ChangeRoute(sc, mail, route);
        return;
      }
      if pick.Some? && rows[Key(sc, pick.value)].drain !in {None, Some(Drained)} {
        return Err(Undrained), pick;
      }
      r := SwitchName(sc, active, mail, route);
    }

    method ChangeRoute(sc: Scope, mail: string, route: Route) returns (r: Result<Row, Error>)
      requires Key(sc, mail) in rows
      modifies this
      ensures View() == Reroute(old(View()), sc, mail, route)
      ensures r == Ok(rows[Key(sc, mail)])
    {
      var key := Key(sc, mail);
      var row := rows[key].(route := route, version := rows[key].version + 1, epoch := rows[key].epoch + 1);
      rows := rows[key := row];
      events := events
        + [ControlEvent(nextId, sc, row.version, None, BindingUpdated(mail, row.epoch, route.selector), false)];
      nextId := nextId + 1;
      r := Ok(row);
    }

    /** Step the active row down and make `mail` active, with its migration and event. */
    method SwitchName(sc: Scope, active: Option<string>, mail: string, route: Route) returns (r: Result<Row, Error>)
      requires active.Some? ==> Key(sc, active.value) in rows
      modifies this
      ensures View() == TakeOver(old(View()), sc, active, mail, route)
      ensures r == Ok(rows[Key(sc, mail)])
    {
      var version, epoch, from := 1, 1, None;
      var migration := nextId;
      if active.Some? {
        var key := Key(sc, active.value);
        version, epoch, from := rows[key].version + 1, rows[key].epoch + 1, Some(rows[key].bindingId);
        rows := rows[key := rows[key].(state := Previous,
                                       drain := if rows[key].drain.Some? then rows[key].drain else Some(Draining),
                                       reason := None,
                                       migration := Some(migration))];
      }
      var key := Key(sc, mail);
      var bindingId := if key in rows then rows[key].bindingId else nextId + 2;
      var row := Row(bindingId, active, None, route, version, Active, None, epoch, Some(migration), 0, ZERO);
      rows := rows[key := row];
      migrations := migrations + [Migration(migration, sc, from, bindingId, epoch)];
      events := events + [ControlEvent(nextId + 1, sc, version, Some(migration),
                                       BindingChanged(mail, active, epoch, route.selector), false)];
      nextId := nextId + 3;
      r := Ok(row);
    }

    method MarkPreviousState(key: Key, next: Drain, expected: Option<Token>, counters: CounterUpdate,
                             reason: Option<string>)
      returns (r: Result<bool, Error>)
      requires Valid()
      modifies this
      ensures Valid()
      ensures (View(), r) == MarkPrevious(old(View()), key, next, expected, counters, reason)
    {
      NextKeeps(View(), DoDrain(key, next, expected, counters, reason));
      if !ValidScope(key.scope) || !ValidMail(key.mail) || expected.None? || !ValidCounters(counters) {
        return Err(Invalid);
      }
      if key !in rows || rows[key].state != Previous {
        return Ok(false);
      }
      var row := rows[key];
      if TokenOf(row) != expected.value {
        return Err(Stale);
      }
      if next !in Forward(DrainOf(row)) {
        return Err(IllegalDrain);
      }
      UpdateDrain(key, next, counters, reason);
      r := Ok(true);
    }

    method UpdateDrain(key: Key, next: Drain, counters: CounterUpdate, reason: Option<string>)
      requires key in rows && ValidCounters(counters)
      modifies this
      ensures View() == DrainedTo(old(View()), key, next, counters, reason)
    {
      var row := rows[key];
      rows := rows[key := row.(drain := Some(next), reason := reason, revision := row.revision + 1,
                               counters := Counted(row.counters, counters))];
      events := events + [ControlEvent(nextId, key.scope, row.version, row.migration,
                                       DrainStateChanged(key.mail, next, reason, counters), false)];
      nextId := nextId + 1;
    }

    method RetireBinding(key: Key, expected: Option<Token>, reason: Option<string>) returns (r: Result<bool, Error>)
      requires Valid()
      modifies this
      ensures Valid()
      ensures (View(), r) == Retire(old(View()), key, expected, reason)
    {
      NextKeeps(View(), DoRetire(key, expected, reason));
      if !ValidScope(key.scope) || !ValidMail(key.mail) || expected.None? {
        return Err(Invalid);
      }
      if key !in rows || rows[key].state != Previous {
        return Ok(false);
      }
      var row := rows[key];
      if DrainOf(row) != Drained || row.counters != ZERO {
        return Err(NotRetirable);
      }
      if TokenOf(row) != expected.value {
        return Err(Stale);
      }
      UpdateRetired(key, reason);
      r := Ok(true);
    }

    method UpdateRetired(key: Key, reason: Option<string>)
      requires key in rows
      modifies this
      ensures View() == RetiredFrom(old(View()), key, reason)
    {
      var row := rows[key];
      rows := rows[key := row.(state := Retired, drain := Some(Drained),
                               reason := if reason.Some? then reason else row.reason)];
      events := events + [ControlEvent(nextId, key.scope, row.version, row.migration,
                                       BindingRetired(key.mail, reason), false)];
      nextId := nextId + 1;
    }

    method UndeliveredControlEvents(issuer: string, limit: int) returns (page: seq<ControlEvent>)
      ensures page == Page(events, issuer, limit) <= UnsentEvents(events, issuer)
      ensures |page| < |UnsentEvents(events, issuer)| ==>
                1 <= |page| && |page| == if limit < 1 then 1 else if limit > 1000 then 1000 else limit
    {
      var unsent := UnsentEvents(events, issuer);
      page := if |unsent| <= Clamped(limit) then unsent else unsent[..Clamped(limit)];
    }

    /** `UPDATE ... SET fanned_out=1 WHERE issuer=? AND event_id=? AND fanned_out=0` */
    method MarkEventFannedOut(issuer: string, id: nat) returns (marked: bool)
      requires Valid()
      modifies this
      ensures Valid() && View() == MarkFannedOut(old(View()), issuer, id)
      ensures marked <==> exists e :: e in UnsentEvents(old(events), issuer) && e.id == id
    {
      NextKeeps(View(), DoMark(issuer, id));
      marked := false;
      for i := 0 to |events|
        invariant |events| == |old(events)|
        invariant unchanged(`rows) && unchanged(`migrations) && unchanged(`nextId)
        invariant forall j | 0 <= j < i :: events[j] == Sent(old(events)[j], issuer, id)
        invariant forall j | i <= j < |events| :: events[j] == old(events)[j]
        invariant marked <==> exists j :: 0 <= j < i && old(events)[j].id == id && Unsent(old(events)[j], issuer)
      {
        if events[i].scope.issuer == issuer && events[i].id == id && !events[i].fannedOut {
          events := events[i := events[i].(fannedOut := true)];
          marked := true;
        }
      }
      assert events == MarkSent(old(events), issuer, id);
      UnsentMembers(old(events), issuer);
    }

    lemma UnsentMembers(all: seq<ControlEvent>, issuer: string)
      ensures forall e :: e in UnsentEvents(all, issuer) <==> e in all && Unsent(e, issuer)
    {
      if all != [] { UnsentMembers(all[1..], issuer); }
    }
  }
}

/**
 How each transaction of the binding store ends, in every reachable state, told from the rows alone; and
 what follows for two callers that read the same version.
 */
module BindingOutcomes {
  import opened Prelude
  import opened Binding
  import opened BindingRuns
  import opened BindingTheorems

  // ---------------------------------------------------------------- the compare-and-swap of a rebind

  ghost predicate HasActive(rows: map<Key, Row>, sc: Scope) {
    exists key :: key in rows && key.scope == sc && rows[key].state.Active?
  }

  /** The scope is at this version: that of its active row, or 0 without one. */
  ghost predicate AtVersion(rows: map<Key, Row>, sc: Scope, version: int) {
    if HasActive(rows, sc)
    then exists key :: key in rows && key.scope == sc && rows[key].state.Active? && rows[key].version == version
    else version == 0
  }

  lemma AtVersionIs(s: Store, sc: Scope, version: int)
    requires Inv(s)
    ensures AtVersion(s.rows, sc, version) <==> version == Current(s, sc)
  {
    ActiveIsUnique(s, sc);
    var active := ActiveMail(s.rows, sc);
    if active.Some? {
      var key := Key(sc, active.value);
      assert key in s.rows && s.rows[key].state.Active?;
    }
  }

  /** The arguments that `bind_leader` takes. */
  predicate Acceptable(sc: Scope, mail: string, route: Route) {
    && 1 <= |sc.issuer| <= 128 && 1 <= |sc.id| <= 256 && 1 <= |mail| <= 128
    && (forall i | 0 <= i < |mail| :: mail[i] as int > 31 && mail[i] as int != 127)
    && (route.selector.None? || |route.selector.value| <= 256)
  }

  /** A bind is refused as invalid exactly when an argument is, or the expected version is missing. */
  lemma BindInvalidExactly(s: Store, sc: Scope, mail: string, route: Route, expected: Option<int>, pick: Option<string>)
    ensures Bind(s, sc, mail, route, expected, pick).1 == Err(Invalid) <==>
            !Acceptable(sc, mail, route) || expected.None?
  {
  }

  /** In every reachable state a valid bind is refused as stale exactly when the expected version is not the
      one the scope is at, and then the store stays as it was. */
  lemma BindStaleExactly(steps: seq<Step>, sc: Scope, mail: string, route: Route, expected: int, pick: Option<string>)
    requires Acceptable(sc, mail, route)
    ensures var s := Run(EMPTY, steps);
            var (t, r) := Bind(s, sc, mail, route, Some(expected), pick);
            && (r == Err(Stale) <==> !AtVersion(s.rows, sc, expected))
            && (r == Err(Stale) ==> t == s)
  {
    Reachable(steps);
    AtVersionIs(Run(EMPTY, steps), sc, expected);
    BindInvalidExactly(Run(EMPTY, steps), sc, mail, route, Some(expected), pick);
  }

  /** A bind that changes the store read the current version and uses it up. */
  lemma BindUsesUp(s: Store, step: Step)
    requires Inv(s) && step.DoBind? && Next(s, step) != s
    ensures step.version == Some(Current(s, step.sc)) && Current(Next(s, step), step.sc) == Current(s, step.sc) + 1
  {
    NextKeeps(s, step);
    ActiveIsUnique(s, step.sc);
    ActiveIsUnique(Next(s, step), step.sc);
    NextVersion(s, step);
  }

  lemma NextVersion(s: Store, step: Step)
    requires step.DoBind? && Next(s, step) != s
    ensures step.version == Some(Current(s, step.sc))
    ensures HasState(Next(s, step).rows, step.sc, step.mail, Active)
    ensures Next(s, step).rows[Key(step.sc, step.mail)].version == Current(s, step.sc) + 1
  {
  }

  lemma {:induction false} CurrentGrowsOver(s: Store, steps: seq<Step>, sc: Scope)
    requires Inv(s)
    ensures Current(s, sc) <= Current(Run(s, steps), sc)
  {
    if steps != [] {
      CurrentGrowsOver(s, steps[..|steps| - 1], sc);
      RunKeeps(s, steps[..|steps| - 1]);
      CurrentGrows(Run(s, steps[..|steps| - 1]), steps[|steps| - 1], sc);
    }
  }

  /** Of two binds of one scope that carry the same read version at most one changes anything, whatever
      happens between them. */
  lemma OneBindPerVersion(before: seq<Step>, first: Step, between: seq<Step>, second: Step)
    requires first.DoBind? && second.DoBind? && first.sc == second.sc && first.version == second.version
    ensures var s := Run(EMPTY, before);
            var u := Run(Next(s, first), between);
            Next(s, first) == s || Next(u, second) == u
  {
    var s := Run(EMPTY, before);
    Reachable(before);
    if Next(s, first) != s {
      var u := Run(Next(s, first), between);
      NextKeeps(s, first);
      BindUsesUp(s, first);
      RunKeeps(Next(s, first), between);
      CurrentGrowsOver(Next(s, first), between, first.sc);
      if Next(u, second) != u { BindUsesUp(u, second); }
    }
  }

  // ---------------------------------------------------------------- what a rebind leaves

  /** The row that steps down owes a drain and belongs to the migration that replaced it. */
  predicate StepsDown(was: Row, now: Row, migration: nat) {
    && now.state.Previous? && now.drain == Some(Draining) && now.reason.None? && now.migration == Some(migration)
    && now.bindingId == was.bindingId && now.version == was.version && now.epoch == was.epoch
    && now.route == was.route && now.counters == was.counters && now.revision == was.revision
    && now.previousMail == was.previousMail
  }

  /** The row that takes over starts clean. */
  predicate StartsClean(now: Row, active: Option<string>, route: Route, version: int, migration: nat) {
    && now.state.Active? && now.previousMail == active && now.drain.None? && now.route == route
    && now.version == version && now.epoch == version && now.reason.None? && now.migration == Some(migration)
    && now.revision == 0 && now.counters == Counters(0, 0, 0, 0)
  }

  /** `mail` took over from `active` in the next version; nothing else changed. */
  ghost predicate TookOver(s: Store, t: Store, sc: Scope, active: Option<string>, mail: string, route: Route,
                           version: int)
  {
    var key := Key(sc, mail);
    && t.rows.Keys == s.rows.Keys + {key}
    && (forall other | other in s.rows && other != key && (other.scope != sc || Some(other.mail) != active) ::
          t.rows[other] == s.rows[other])
    && (key in s.rows ==> t.rows[key].bindingId == s.rows[key].bindingId)
    && (active.Some? ==> Key(sc, active.value) in s.rows)
    && |t.migrations| == |s.migrations| + 1 && s.migrations <= t.migrations
    && |t.events| == |s.events| + 1 && s.events <= t.events
    && var m, e := t.migrations[|s.migrations|], t.events[|s.events|];
    && StartsClean(t.rows[key], active, route, version, m.id)
    && (active.Some? ==> StepsDown(s.rows[Key(sc, active.value)], t.rows[Key(sc, active.value)], m.id))
    && m == Migration(m.id, sc, if active.Some? then Some(s.rows[Key(sc, active.value)].bindingId) else None,
                      t.rows[key].bindingId, version)
    && e == ControlEvent(e.id, sc, version, Some(m.id), BindingChanged(mail, active, version, route.selector), false)
  }

  lemma TakeOverFacts(s: Store, sc: Scope, active: Option<string>, mail: string, route: Route)
    requires active != Some(mail) && EpochOf(s.rows, sc, active) == VersionOf(s.rows, sc, active)
    requires active.Some? ==> Key(sc, active.value) in s.rows && s.rows[Key(sc, active.value)].drain.None?
    ensures TookOver(s, TakeOver(s, sc, active, mail, route), sc, active, mail, route,
                     VersionOf(s.rows, sc, active) + 1)
  {
  }

  /** No name, or the one whose row is active. */
  ghost predicate IsActive(rows: map<Key, Row>, sc: Scope, active: Option<string>) {
    if active.Some? then HasState(rows, sc, active.value, Active) else !HasActive(rows, sc)
  }

  lemma IsActiveIs(s: Store, sc: Scope, active: Option<string>)
    requires Inv(s) && IsActive(s.rows, sc, active)
    ensures ActiveMail(s.rows, sc) == active && EpochOf(s.rows, sc, active) == VersionOf(s.rows, sc, active)
    ensures active.Some? ==> s.rows[Key(sc, active.value)].drain.None?
  {
    ActiveIsUnique(s, sc);
  }

  lemma TakeOverCases(s: Store, sc: Scope, active: Option<string>, mail: string, route: Route, expected: int,
                      pick: Option<string>)
    requires BindArgumentsValid(sc, mail, route, Some(expected)) && active != Some(mail)
    requires ActiveMail(s.rows, sc) == active && VersionOf(s.rows, sc, active) == expected
    requires Fetched(s.rows, sc, pick) && (pick.Some? ==> s.rows[Key(sc, pick.value)].drain.Some?)
    ensures var (t, r) := Bind(s, sc, mail, route, Some(expected), pick);
            if pick.Some? && s.rows[Key(sc, pick.value)].drain != Some(Drained) then t == s && r == Err(Undrained)
            else t == TakeOver(s, sc, active, mail, route) && r == Ok(t.rows[Key(sc, mail)])
  {
  }

  lemma TakeOverOutcome(s: Store, sc: Scope, active: Option<string>, mail: string, route: Route, expected: int,
                        pick: Option<string>)
    requires BindArgumentsValid(sc, mail, route, Some(expected)) && active != Some(mail)
    requires ActiveMail(s.rows, sc) == active && VersionOf(s.rows, sc, active) == expected
    requires EpochOf(s.rows, sc, active) == expected
    requires active.Some? ==> Key(sc, active.value) in s.rows && s.rows[Key(sc, active.value)].drain.None?
    requires Fetched(s.rows, sc, pick) && (pick.Some? ==> s.rows[Key(sc, pick.value)].drain.Some?)
    ensures var (t, r) := Bind(s, sc, mail, route, Some(expected), pick);
            if pick.Some? && s.rows[Key(sc, pick.value)].drain != Some(Drained) then t == s && r == Err(Undrained)
            else TookOver(s, t, sc, active, mail, route, expected + 1) && r == Ok(t.rows[Key(sc, mail)])
  {
    TakeOverCases(s, sc, active, mail, route, expected, pick);
    TakeOverFacts(s, sc, active, mail, route);
  }

  /** A valid bind of another name at the right version is refused exactly when the previous row that the gate
      happened to read is not drained.  Otherwise the name is active in the next version, the one before it
      has stepped down, no other row changes, and a migration and an unsent event tell of it. */
  lemma TakeOverExactly(steps: seq<Step>, sc: Scope, active: Option<string>, mail: string, route: Route,
                        expected: int, pick: Option<string>)
    requires Acceptable(sc, mail, route) && active != Some(mail)
    requires var s := Run(EMPTY, steps);
             AtVersion(s.rows, sc, expected) && IsActive(s.rows, sc, active) && Fetched(s.rows, sc, pick)
    ensures var s := Run(EMPTY, steps);
            var (t, r) := Bind(s, sc, mail, route, Some(expected), pick);
            if pick.Some? && s.rows[Key(sc, pick.value)].drain != Some(Drained) then t == s && r == Err(Undrained)
            else TookOver(s, t, sc, active, mail, route, expected + 1) && r == Ok(t.rows[Key(sc, mail)])
  {
    var s := Run(EMPTY, steps);
    Reachable(steps);
    AtVersionIs(s, sc, expected);
    IsActiveIs(s, sc, active);
    BindInvalidExactly(s, sc, mail, route, Some(expected), pick);
    if pick.Some? { PreviousFacts(s, Key(sc, pick.value)); }
    TakeOverOutcome(s, sc, active, mail, route, expected, pick);
  }

  /** The same row, or the same with another route in the next version, one event and no migration. */
  ghost predicate Rerouted(s: Store, t: Store, key: Key, route: Route, version: int) {
    && key in s.rows
    && if s.rows[key].route == route then t == s
       else && t.rows == s.rows[key := s.rows[key].(route := route, version := version, epoch := version)]
            && t.migrations == s.migrations
            && t.events == s.events + [ControlEvent(s.nextId, key.scope, version, None,
                                                    BindingUpdated(key.mail, version, route.selector), false)]
  }

  lemma RerouteCases(s: Store, sc: Scope, mail: string, route: Route, expected: int, pick: Option<string>)
    requires BindArgumentsValid(sc, mail, route, Some(expected)) && Key(sc, mail) in s.rows
    requires ActiveMail(s.rows, sc) == Some(mail) && s.rows[Key(sc, mail)].version == expected
    requires s.rows[Key(sc, mail)].epoch == expected
    ensures var (t, r) := Bind(s, sc, mail, route, Some(expected), pick);
            Rerouted(s, t, Key(sc, mail), route, expected + 1) && r == Ok(t.rows[Key(sc, mail)])
  {
  }

  /** A valid bind of the active name at the right version changes nothing if the route is the same, and else
      the route, the version and the epoch of this one row, with one event and no migration. */
  lemma RerouteExactly(steps: seq<Step>, sc: Scope, mail: string, route: Route, expected: int, pick: Option<string>)
    requires Acceptable(sc, mail, route)
    requires AtVersion(Run(EMPTY, steps).rows, sc, expected) && HasState(Run(EMPTY, steps).rows, sc, mail, Active)
    ensures var s := Run(EMPTY, steps);
            var (t, r) := Bind(s, sc, mail, route, Some(expected), pick);
            Rerouted(s, t, Key(sc, mail), route, expected + 1) && r == Ok(t.rows[Key(sc, mail)])
  {
    var s := Run(EMPTY, steps);
    Reachable(steps);
    AtVersionIs(s, sc, expected);
    IsActiveIs(s, sc, Some(mail));
    BindInvalidExactly(s, sc, mail, route, Some(expected), pick);
    RerouteCases(s, sc, mail, route, expected, pick);
  }

  /** The wiring drops the selector of a retired row and nothing else. */
  lemma ClearExactly(s: Store, key: Key)
    ensures ClearSelector(s, key) ==
            if key in s.rows && s.rows[key].state == Retired
            then s.(rows := s.rows[key := s.rows[key].(route := s.rows[key].route.(selector := None))]) else s
  {
    assert key == Key(key.scope, key.mail);
  }

  // ---------------------------------------------------------------- the outbox

  /** A reader is given the first unsent events of its issuer in the order of the outbox, as many as the limit
      allows: at least 1, at most 1000. */
  lemma PageExactly(events: seq<ControlEvent>, issuer: string, limit: int) returns (at: seq<nat>)
    ensures TakenAt(Page(events, issuer, limit), events, at)
    ensures forall i | 0 <= i < |events| ::
              i in at <==> && events[i].scope.issuer == issuer && !events[i].fannedOut
                           && UnsentBefore(events, issuer, i)
                                < (if limit < 1 then 1 else if limit > 1000 then 1000 else limit)
  {
    var all := UnsentAt(events, issuer);
    var n := |Page(events, issuer, limit)|;
    at := all[..n];
    forall i | 0 <= i < |events|
      ensures i in at <==> Unsent(events[i], issuer) && UnsentBefore(events, issuer, i) < Clamped(limit)
    {
      if i in all {
        var k :| 0 <= k < |all| && all[k] == i;
        CountedAt(events, issuer, all, k);
        assert i in at <==> k < n;
      }
    }
  }

  /** How many unsent events stand before position `i`. */
  function UnsentBefore(events: seq<ControlEvent>, issuer: string, i: nat): nat
    requires i <= |events|
  {
    |set j | 0 <= j < i && Unsent(events[j], issuer)|
  }

  lemma {:induction false} UnsentAppend(front: seq<ControlEvent>, last: ControlEvent, issuer: string)
    ensures UnsentEvents(front + [last], issuer) ==
            UnsentEvents(front, issuer) + if Unsent(last, issuer) then [last] else []
  {
    if front == [] {
      assert [last][1..] == [];
    } else {
      var all := front + [last];
      assert all[0] == front[0] && all[1..] == front[1..] + [last];
      UnsentAppend(front[1..], last, issuer);
    }
  }

  lemma {:induction false} UnsentAt(events: seq<ControlEvent>, issuer: string) returns (at: seq<nat>)
    ensures TakenAt(UnsentEvents(events, issuer), events, at)
    ensures forall i | 0 <= i < |events| :: i in at <==> Unsent(events[i], issuer)
  {
    if events == [] {
      at := [];
    } else {
      var front, last := events[..|events| - 1], events[|events| - 1];
      assert events == front + [last];
      at := UnsentAt(front, issuer);
      UnsentAppend(front, last, issuer);
      TakenNext(UnsentEvents(front, issuer), front, at, last);
      if Unsent(last, issuer) { at := at + [|front|]; }
    }
  }

  lemma {:induction false} CountedAt(events: seq<ControlEvent>, issuer: string, at: seq<nat>, k: nat)
    requires TakenAt(UnsentEvents(events, issuer), events, at) && k < |at|
    requires forall i | 0 <= i < |events| :: i in at <==> Unsent(events[i], issuer)
    ensures UnsentBefore(events, issuer, at[k]) == k
  {
    var before := set j | 0 <= j < at[k] && Unsent(events[j], issuer);
    assert before == set m | 0 <= m < k :: at[m];
    RisingSize(at, k);
  }

  lemma {:induction false} RisingSize(at: seq<nat>, k: nat)
    requires k <= |at| && forall i, j | 0 <= i < j < |at| :: at[i] < at[j]
    ensures |set m | 0 <= m < k :: at[m]| == k
  {
    var all := set m | 0 <= m < k :: at[m];
    if k > 0 {
      RisingSize(at, k - 1);
      var fewer := set m | 0 <= m < k - 1 :: at[m];
      assert all == fewer + {at[k - 1]};
    } else {
      assert all == {};
    }
  }

  // ---------------------------------------------------------------- draining and retiring

  /** The drain states that may follow one another; drained is the last. */
  predicate MayFollow(was: Drain, next: Drain) {
    || (was == Pending && (next == Pending || next == Draining || next == Drained))
    || (was == Draining && (next == Draining || next == Drained || next == Degraded))
    || (was == Degraded && (next == Degraded || next == Draining))
    || (was == Drained && next == Drained)
  }

  /** The token names the row as it is now. */
  predicate Names(token: Token, row: Row) {
    && token.version == row.version && token.migration == row.migration
    && Some(token.drain) == row.drain && token.revision == row.revision
  }

  predicate Reported(was: nat, given: Option<int>, now: nat) {
    now == if given.Some? then given.value else was
  }

  /** The row after a report: the new drain state, the reason, and each counter that was given. */
  predicate Reports(was: Row, now: Row, next: Drain, counters: CounterUpdate, reason: Option<string>) {
    && now.state.Previous? && now.drain == Some(next) && now.reason == reason && now.revision == was.revision + 1
    && Reported(was.counters.remaining, counters.remaining, now.counters.remaining)
    && Reported(was.counters.pending, counters.pending, now.counters.pending)
    && Reported(was.counters.claimed, counters.claimed, now.counters.claimed)
    && Reported(was.counters.ackPending, counters.ackPending, now.counters.ackPending)
    && now.version == was.version && now.epoch == was.epoch && now.migration == was.migration
    && now.route == was.route && now.bindingId == was.bindingId && now.previousMail == was.previousMail
  }

  /** Only this row changed, and one unsent event of its version and migration tells of it. */
  ghost predicate OneRowTold(s: Store, t: Store, key: Key, payload: Payload) {
    && key in s.rows && t.rows.Keys == s.rows.Keys && (forall other | other in s.rows && other != key ::
                                                         t.rows[other] == s.rows[other])
    && t.migrations == s.migrations
    && t.events == s.events + [ControlEvent(s.nextId, key.scope, s.rows[key].version, s.rows[key].migration,
                                            payload, false)]
  }

  predicate NoneNegative(counters: CounterUpdate) {
    && (counters.remaining.Some? ==> counters.remaining.value >= 0)
    && (counters.pending.Some? ==> counters.pending.value >= 0)
    && (counters.claimed.Some? ==> counters.claimed.value >= 0)
    && (counters.ackPending.Some? ==> counters.ackPending.value >= 0)
  }

  /** A drain report on a previous row: stale, of a state that may not follow, or stored. */
  lemma DrainExactly(steps: seq<Step>, key: Key, next: Drain, token: Token, counters: CounterUpdate,
                     reason: Option<string>)
    requires HasState(Run(EMPTY, steps).rows, key.scope, key.mail, Previous)
    requires Acceptable(key.scope, key.mail, NO_ROUTE) && NoneNegative(counters)
    ensures var s := Run(EMPTY, steps);
            var (t, r) := MarkPrevious(s, key, next, Some(token), counters, reason);
            && (r == Err(Stale) <==> !Names(token, s.rows[key]))
            && (r == Err(IllegalDrain) <==> Names(token, s.rows[key]) && !MayFollow(token.drain, next))
            && (r == Ok(true) <==> Names(token, s.rows[key]) && MayFollow(token.drain, next))
            && if r == Ok(true)
               then && OneRowTold(s, t, key, DrainStateChanged(key.mail, next, reason, counters))
                    && Reports(s.rows[key], t.rows[key], next, counters, reason)
               else t == s
  {
    Reachable(steps);
    PreviousFacts(Run(EMPTY, steps), key);
    DrainCases(Run(EMPTY, steps), key, next, token, counters, reason);
  }

  lemma DrainCases(s: Store, key: Key, next: Drain, token: Token, counters: CounterUpdate, reason: Option<string>)
    requires HasState(s.rows, key.scope, key.mail, Previous) && s.rows[key].drain.Some?
    requires Acceptable(key.scope, key.mail, NO_ROUTE) && NoneNegative(counters)
    ensures var (t, r) := MarkPrevious(s, key, next, Some(token), counters, reason);
            && (r == Err(Stale) <==> !Names(token, s.rows[key]))
            && (r == Err(IllegalDrain) <==> Names(token, s.rows[key]) && !MayFollow(token.drain, next))
            && (r == Ok(true) <==> Names(token, s.rows[key]) && MayFollow(token.drain, next))
            && if r == Ok(true)
               then && OneRowTold(s, t, key, DrainStateChanged(key.mail, next, reason, counters))
                    && Reports(s.rows[key], t.rows[key], next, counters, reason)
               else t == s
  {
  }

  lemma RetireCases(s: Store, key: Key, token: Token, reason: Option<string>)
    requires HasState(s.rows, key.scope, key.mail, Previous) && s.rows[key].drain.Some?
    requires Acceptable(key.scope, key.mail, NO_ROUTE)
    ensures var (t, r) := Retire(s, key, Some(token), reason);
            && (r == Err(NotRetirable) <==> !Emptied(s.rows[key]))
            && (r == Err(Stale) <==> Emptied(s.rows[key]) && !Names(token, s.rows[key]))
            && (r == Ok(true) <==> Emptied(s.rows[key]) && Names(token, s.rows[key]))
            && if r == Ok(true)
               then && OneRowTold(s, t, key, BindingRetired(key.mail, reason))
                    && t.rows[key] == s.rows[key].(state := Retired,
                                                   reason := if reason.Some? then reason else s.rows[key].reason)
               else t == s
  {
  }

  /** Drained, and every counter that was reported says that nothing is left. */
  predicate Emptied(row: Row) {
    && row.drain == Some(Drained) && row.counters.remaining == 0 && row.counters.pending == 0
    && row.counters.claimed == 0 && row.counters.ackPending == 0
  }

  /** A previous row is retired exactly when it is drained, no counter is above zero, and the token names it. */
  lemma RetireExactly(steps: seq<Step>, key: Key, token: Token, reason: Option<string>)
    requires HasState(Run(EMPTY, steps).rows, key.scope, key.mail, Previous)
    requires Acceptable(key.scope, key.mail, NO_ROUTE)
    ensures var s := Run(EMPTY, steps);
            var (t, r) := Retire(s, key, Some(token), reason);
            && (r == Err(NotRetirable) <==> !Emptied(s.rows[key]))
            && (r == Err(Stale) <==> Emptied(s.rows[key]) && !Names(token, s.rows[key]))
            && (r == Ok(true) <==> Emptied(s.rows[key]) && Names(token, s.rows[key]))
            && if r == Ok(true)
               then && OneRowTold(s, t, key, BindingRetired(key.mail, reason))
                    && t.rows[key] == s.rows[key].(state := Retired,
                                                   reason := if reason.Some? then reason else s.rows[key].reason)
               else t == s
  {
    Reachable(steps);
    PreviousFacts(Run(EMPTY, steps), key);
    RetireCases(Run(EMPTY, steps), key, token, reason);
  }

  /** Steps that report nothing on this row. */
  ghost predicate Unreported(steps: seq<Step>, key: Key) {
    forall step | step in steps :: step.DoDrain? ==> step.key != key
  }

  /** Not retired, and not to be retired without a further report. */
  ghost predicate Held(s: Store, key: Key) {
    && key in s.rows && !s.rows[key].state.Retired?
    && (s.rows[key].state.Previous? ==> s.rows[key].counters != ZERO || s.rows[key].drain != Some(Drained))
  }

  lemma StepHolds(s: Store, step: Step, key: Key)
    requires Inv(s) && Held(s, key) && (step.DoDrain? ==> step.key != key)
    ensures Held(Next(s, step), key)
  {
    if step.DoBind? && Next(s, step) != s {
      ActiveIsUnique(s, step.sc);
      if ActiveMail(s.rows, step.sc) == Some(step.mail) {
        RerouteHolds(s, step.sc, step.mail, step.route, key);
      } else {
        TakeOverHolds(s, step.sc, ActiveMail(s.rows, step.sc), step.mail, step.route, key);
      }
    }
  }

  lemma RerouteHolds(s: Store, sc: Scope, mail: string, route: Route, key: Key)
    requires Held(s, key) && HasState(s.rows, sc, mail, Active)
    ensures Held(Reroute(s, sc, mail, route), key)
  {
  }

  lemma TakeOverHolds(s: Store, sc: Scope, active: Option<string>, mail: string, route: Route, key: Key)
    requires Held(s, key) && active != Some(mail)
    requires active.Some? ==> HasState(s.rows, sc, active.value, Active) && s.rows[Key(sc, active.value)].drain.None?
    ensures Held(TakeOver(s, sc, active, mail, route), key)
  {
  }

  lemma {:induction false} RunHolds(s: Store, steps: seq<Step>, key: Key)
    requires Inv(s) && Held(s, key) && Unreported(steps, key)
    ensures Held(Run(s, steps), key)
  {
    if steps != [] {
      var front := steps[..|steps| - 1];
      RunHolds(s, front, key);
      RunKeeps(s, front);
      StepHolds(Run(s, front), steps[|steps| - 1], key);
    }
  }

  predicate Above(given: Option<int>) {
    given.Some? && given.value > 0
  }

  /** A mailbox reported with anything left in it is not retired before a further report on it, whatever
      happens in between: another rebind, a revival of the name, or any number of retirements. */
  lemma ReportedMailHolds(before: seq<Step>, key: Key, next: Drain, token: Token, counters: CounterUpdate,
                          reason: Option<string>, after: seq<Step>)
    requires var s := Run(EMPTY, before);
             MarkPrevious(s, key, next, Some(token), counters, reason).1 == Ok(true)
    requires Above(counters.remaining) || Above(counters.pending) || Above(counters.claimed)
             || Above(counters.ackPending)
    requires Unreported(after, key)
    ensures var t := Run(Next(Run(EMPTY, before), DoDrain(key, next, Some(token), counters, reason)), after);
            key in t.rows && !t.rows[key].state.Retired?
  {
    var s, report := Run(EMPTY, before), DoDrain(key, next, Some(token), counters, reason);
    Reachable(before);
    NextKeeps(s, report);
    RunHolds(Next(s, report), after, key);
  }

  /** Drained in this version: nothing but a revival, which is a later version, undoes it. */
  ghost predicate DrainedSince(s: Store, key: Key, version: int) {
    && key in s.rows && version <= s.rows[key].version
    && (s.rows[key].version == version ==> !s.rows[key].state.Active? && s.rows[key].drain == Some(Drained))
  }

  lemma StepKeepsDrained(s: Store, step: Step, key: Key, version: int)
    requires Inv(s) && DrainedSince(s, key, version)
    ensures DrainedSince(Next(s, step), key, version)
  {
    StepMovesForward(s, step, key);
    if step.DoBind? { ActiveIsUnique(s, step.sc); }
  }

  /** A drained mailbox stays drained until its name is bound again, which gives it a later version. */
  lemma {:induction false} DrainedStays(before: seq<Step>, after: seq<Step>, key: Key)
    requires var s := Run(EMPTY, before);
             HasState(s.rows, key.scope, key.mail, Previous) && s.rows[key].drain == Some(Drained)
    ensures DrainedSince(Run(Run(EMPTY, before), after), key, Run(EMPTY, before).rows[key].version)
  {
    if after != [] {
      var front := after[..|after| - 1];
      DrainedStays(before, front, key);
      Reachable(before);
      RunKeeps(Run(EMPTY, before), front);
      StepKeepsDrained(Run(Run(EMPTY, before), front), after[|after| - 1], key, Run(EMPTY, before).rows[key].version);
    }
  }
}

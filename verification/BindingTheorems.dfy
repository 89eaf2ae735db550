/** The promises of the binding store, for every run of its transactions. */
module BindingTheorems {
  import opened Prelude
  import opened Binding
  import opened BindingRuns

  // ---------------------------------------------------------------- outbox

  /** Reading the events in order yields exactly the state, drain state and version of every row. */
  lemma OutboxRebuildsRows(steps: seq<Step>)
    ensures var s := Run(EMPTY, steps);
            && Fold(s.events).Keys == s.rows.Keys
            && (forall key | key in s.rows :: Fold(s.events)[key] == ShapeOf(s.rows[key]))
            && (forall i, j | 0 <= i < j < |s.events| :: s.events[i].id < s.events[j].id)
  {
    Reachable(steps);
  }

  /** Bind, drain and retire write one event when they change a row, and none otherwise. */
  lemma OneEventPerChange(steps: seq<Step>, step: Step)
    requires step.DoBind? || step.DoDrain? || step.DoRetire?
    ensures OneEvent(Run(EMPTY, steps), Next(Run(EMPTY, steps), step))
  {
    Reachable(steps);
    var s := Run(EMPTY, steps);
    if step.DoBind? { BindWritesOne(s, step); } else { DrainWritesOne(s, step); }
  }

  /** Nothing happened, or the rows changed and the outbox has exactly one event more, unsent. */
  ghost predicate OneEvent(s: Store, t: Store) {
    if t.rows == s.rows then t == s
    else |t.events| == |s.events| + 1 && s.events <= t.events && !t.events[|s.events|].fannedOut
  }

  lemma BindWritesOne(s: Store, step: Step)
    requires Inv(s) && step.DoBind?
    ensures OneEvent(s, Next(s, step))
  {
    var t := Next(s, step);
    if t != s {
      ActiveIsUnique(s, step.sc);
      var key := Key(step.sc, step.mail);
      if key in s.rows { assert t.rows[key].version != s.rows[key].version; }
    }
  }

  lemma DrainWritesOne(s: Store, step: Step)
    requires step.DoDrain? || step.DoRetire?
    ensures OneEvent(s, Next(s, step))
  {
    var t := Next(s, step);
    if t != s { assert t.rows[step.key] != s.rows[step.key]; }
  }

  /** A refused or repeated call leaves the whole store as it was. */
  lemma RefusalChangesNothing(s: Store, sc: Scope, mail: string, route: Route, version: Option<int>,
                              pick: Option<string>, key: Key, next: Drain, token: Option<Token>,
                              counters: CounterUpdate, reason: Option<string>)
    ensures Bind(s, sc, mail, route, version, pick).1.Err? ==> Bind(s, sc, mail, route, version, pick).0 == s
    ensures MarkPrevious(s, key, next, token, counters, reason).1 != Ok(true) ==>
              MarkPrevious(s, key, next, token, counters, reason).0 == s
    ensures Retire(s, key, token, reason).1 != Ok(true) ==> Retire(s, key, token, reason).0 == s
    ensures Inv(s) && ActiveMail(s.rows, sc) == Some(mail) && s.rows[Key(sc, mail)].route == route
            ==> Bind(s, sc, mail, route, version, pick).0 == s
  {
  }

  /** Marking an event as sent takes exactly that event out of its issuer's list. */
  lemma {:induction false} MarkTakesOne(events: seq<ControlEvent>, issuer: string, id: nat, reader: string,
                                        e: ControlEvent)
    ensures e in UnsentEvents(MarkSent(events, issuer, id), reader) <==>
            e in UnsentEvents(events, reader) && !(reader == issuer && e.id == id)
  {
    if events != [] {
      var marked := MarkSent(events, issuer, id);
      assert marked[1..] == MarkSent(events[1..], issuer, id);
      MarkTakesOne(events[1..], issuer, id, reader, e);
      UnsentAreUnsent(events, reader, e);
      UnsentAreUnsent(marked, reader, e);
    }
  }

  lemma {:induction false} UnsentAreUnsent(events: seq<ControlEvent>, reader: string, e: ControlEvent)
    ensures e in UnsentEvents(events, reader) <==> e in events && Unsent(e, reader)
  {
    if events != [] { UnsentAreUnsent(events[1..], reader, e); }
  }

  // ---------------------------------------------------------------- events of a row that has stepped down

  /** The two kinds of event that only a row which has stepped down writes. */
  predicate FromOldRow(e: ControlEvent) {
    e.payload.DrainStateChanged? || e.payload.BindingRetired?
  }

  /** The version of the active row. */
  ghost function Current(s: Store, sc: Scope): int {
    VersionOf(s.rows, sc, ActiveMail(s.rows, sc))
  }

  ghost predicate Outdated(s: Store) {
    forall e | e in s.events && FromOldRow(e) :: ActiveMail(s.rows, e.scope).Some? && e.version < Current(s, e.scope)
  }

  /** Versions are counted by events that stay. */
  lemma CurrentGrows(s: Store, step: Step, sc: Scope)
    requires Inv(s)
    ensures Current(s, sc) <= Current(Next(s, step), sc)
    ensures ActiveMail(s.rows, sc).Some? ==> ActiveMail(Next(s, step).rows, sc).Some?
  {
    var t := Next(s, step);
    NextKeeps(s, step);
    ActiveIsUnique(s, sc);
    ActiveIsUnique(t, sc);
    StepAppends(s, step);
    VersionsGrow(s, step, sc);
    RowsStay(s, step);
  }

  lemma RowsStay(s: Store, step: Step)
    ensures s.rows.Keys <= Next(s, step).rows.Keys
  {
    KeysStay(s, [step]);
    assert [step][..0] == [] && Run(s, [step]) == Next(s, step);
  }

  lemma VersionsGrow(s: Store, step: Step, sc: Scope)
    ensures Versions(s.events, sc) <= Versions(Next(s, step).events, sc)
  {
    StepAppends(s, step);
    var t := Next(s, step);
    if step.DoMark? {
      FlagsDoNotMatter(s.events, t.events);
    } else if t.events != s.events {
      EventAppended(s.events, t.events[|s.events|]);
      assert t.events == s.events + [t.events[|s.events|]];
    }
  }

  /** A transaction appends at most one event, with a fresh id; only a mark touches the others. */
  lemma StepAppends(s: Store, step: Step)
    ensures var t := Next(s, step);
            && s.nextId <= t.nextId
            && if step.DoMark? then t.events == MarkSent(s.events, step.issuer, step.id) && t.nextId == s.nextId
               else t.events == s.events ||
                    (|t.events| == |s.events| + 1 && s.events <= t.events
                     && s.nextId <= t.events[|s.events|].id < t.nextId && !t.events[|s.events|].fannedOut)
  {
  }

  /** The event of a transaction on a previous row bears that row's version. */
  lemma OldRowWrites(s: Store, step: Step)
    requires Inv(s) && (step.DoDrain? || step.DoRetire?) && Next(s, step) != s
    ensures var e := Next(s, step).events[|s.events|];
            && e.scope == step.key.scope && HasState(s.rows, e.scope, step.key.mail, Previous)
            && e.version == s.rows[step.key].version
  {
  }

  lemma OutdatedStays(s: Store, step: Step)
    requires Inv(s) && Outdated(s)
    ensures Outdated(Next(s, step))
  {
    var t := Next(s, step);
    StepAppends(s, step);
    forall e | e in t.events && FromOldRow(e)
      ensures ActiveMail(t.rows, e.scope).Some? && e.version < Current(t, e.scope)
    {
      CurrentGrows(s, step, e.scope);
      if step.DoMark? {
        var i :| 0 <= i < |t.events| && t.events[i] == e;
        assert s.events[i] in s.events;
      } else if e !in s.events {
        assert e == t.events[|s.events|];
        NewOldEvent(s, step);
      }
    }
  }

  lemma NewOldEvent(s: Store, step: Step)
    requires Inv(s) && Next(s, step).events != s.events && !step.DoMark? && FromOldRow(Next(s, step).events[|s.events|])
    ensures var e := Next(s, step).events[|s.events|];
            ActiveMail(s.rows, e.scope).Some? && e.version < Current(s, e.scope)
  {
    if step.DoDrain? || step.DoRetire? {
      OldRowWrites(s, step);
      ActiveIsUnique(s, step.key.scope);
    }
  }

  /** Every drain and retirement event is of a lower version than the active row of its scope, on every run
      and for ever. */
  lemma {:induction false} OldRowsAreOutdated(steps: seq<Step>)
    ensures Outdated(Run(EMPTY, steps))
  {
    if steps != [] {
      Reachable(steps[..|steps| - 1]);
      OldRowsAreOutdated(steps[..|steps| - 1]);
      OutdatedStays(Run(EMPTY, steps[..|steps| - 1]), steps[|steps| - 1]);
    }
  }

  // ---------------------------------------------------------------- one active row

  lemma {:induction false} KeysStay(s: Store, steps: seq<Step>)
    ensures s.rows.Keys <= Run(s, steps).rows.Keys
  {
    if steps != [] { KeysStay(s, steps[..|steps| - 1]); }
  }

  lemma {:induction false} RunConcat(s: Store, a: seq<Step>, b: seq<Step>)
    ensures Run(s, a + b) == Run(Run(s, a), b)
  {
    if b == [] {
      assert a + b == a;
    } else {
      RunConcat(s, a, b[..|b| - 1]);
      assert (a + b)[..|a + b| - 1] == a + b[..|b| - 1];
    }
  }

  /** Once a scope is bound it has exactly one active row, whatever follows; that row holds the
      largest version, which counts the events that assigned one, and ends the migration chain. */
  lemma OneActiveForever(before: seq<Step>, after: seq<Step>, sc: Scope)
    requires !Unbound(Run(EMPTY, before).rows, sc)
    ensures var t := Run(EMPTY, before + after);
            var active := ActiveMail(t.rows, sc);
            && active.Some?
            && var top := t.rows[Key(sc, active.value)];
            && top.state.Active?
            && (forall key | key in t.rows && key.scope == sc && key.mail != active.value ::
                  !t.rows[key].state.Active? && 1 <= t.rows[key].version < top.version)
            && (forall key | key in t.rows && key.scope == sc :: t.rows[key].epoch == t.rows[key].version)
            && (forall k, l | k in t.rows && l in t.rows && k.scope == sc && l.scope == sc && k != l ::
                  t.rows[k].version != t.rows[l].version)
            && top.version == Versions(t.events, sc)
            && Chained(t.migrations) && Tip(t.migrations, sc) == Some(top.bindingId)
  {
    RunConcat(EMPTY, before, after);
    KeysStay(Run(EMPTY, before), after);
    Reachable(before + after);
    var s, t := Run(EMPTY, before), Run(EMPTY, before + after);
    var key :| key in s.rows && key.scope == sc;
    assert key in t.rows;
    ActiveIsUnique(t, sc);
  }

  /** A row is retired only with a proof of an empty mailbox. */
  lemma RetiredOnlyWhenDrained(steps: seq<Step>, key: Key)
    requires key in Run(EMPTY, steps).rows && Run(EMPTY, steps).rows[key].state.Retired?
    ensures Run(EMPTY, steps).rows[key].drain == Some(Drained) && Run(EMPTY, steps).rows[key].counters == ZERO
  {
    Reachable(steps);
    PreviousFacts(Run(EMPTY, steps), key);
  }

  // ---------------------------------------------------------------- stale workers

  function Phase(state: RowState): nat {
    match state
    case Active => 0
    case Previous => 1
    case Retired => 2
  }

  predicate Before(a: Row, b: Row) {
    a.version < b.version ||
    (a.version == b.version &&
     (Phase(a.state) < Phase(b.state) || (a.state == b.state && a.revision < b.revision)))
  }

  /** Equal but for the route, which no token mentions. */
  predicate SameRow(a: Row, b: Row) {
    b.(route := a.route) == a
  }

  lemma BindMovesForward(s: Store, step: Step, key: Key)
    requires Inv(s) && key in s.rows && step.DoBind?
    ensures var t := Next(s, step);
            key in t.rows && (SameRow(s.rows[key], t.rows[key]) || Before(s.rows[key], t.rows[key]))
  {
    var t := Next(s, step);
    if t != s {
      ActiveIsUnique(s, step.sc);
      var active := ActiveMail(s.rows, step.sc);
      if key.scope == step.sc {
        assert active.Some?;
        assert RowOk(s.rows[key], s.rows[Key(step.sc, active.value)].version);
      }
      if active == Some(step.mail) { RerouteTouches(s, step, key); } else { TakeOverTouches(s, step, key); }
    }
  }

  lemma RerouteTouches(s: Store, step: Step, key: Key)
    requires key in s.rows && step.DoBind? && Next(s, step) != s && ActiveMail(s.rows, step.sc) == Some(step.mail)
    ensures var t := Next(s, step);
            key in t.rows && if key == Key(step.sc, step.mail) then t.rows[key].version == s.rows[key].version + 1
                             else t.rows[key] == s.rows[key]
  {
  }

  lemma TakeOverTouches(s: Store, step: Step, key: Key)
    requires key in s.rows && step.DoBind? && Next(s, step) != s && ActiveMail(s.rows, step.sc) != Some(step.mail)
    ensures var t, active := Next(s, step), ActiveMail(s.rows, step.sc);
            && key in t.rows
            && if key == Key(step.sc, step.mail) then t.rows[key].version == VersionOf(s.rows, step.sc, active) + 1
               else if active.Some? && key == Key(step.sc, active.value)
               then && t.rows[key].version == s.rows[key].version
                    && t.rows[key].state.Previous? && s.rows[key].state.Active?
               else t.rows[key] == s.rows[key]
  {
  }

  /** Every change of a row moves it strictly forward in (version, state, drain revision). */
  lemma StepMovesForward(s: Store, step: Step, key: Key)
    requires Inv(s) && key in s.rows
    ensures var t := Next(s, step);
            key in t.rows && (SameRow(s.rows[key], t.rows[key]) || Before(s.rows[key], t.rows[key]))
  {
    if step.DoBind? { BindMovesForward(s, step, key); }
  }

  lemma {:induction false} RunMovesForward(s: Store, steps: seq<Step>, key: Key)
    requires Inv(s) && key in s.rows
    ensures var t := Run(s, steps);
            key in t.rows && (SameRow(s.rows[key], t.rows[key]) || Before(s.rows[key], t.rows[key]))
  {
    if steps != [] {
      var front := steps[..|steps| - 1];
      RunMovesForward(s, front, key);
      RunKeeps(s, front);
      StepMovesForward(Run(s, front), steps[|steps| - 1], key);
    }
  }

  /** A token read from a previous row is worthless for ever once that row has changed, even after
      the name has been bound and replaced again: the late drain or retire changes nothing. */
  lemma StaleTokenIsDead(before: seq<Step>, between: seq<Step>, after: seq<Step>, key: Key, row: Row,
                         next: Drain, counters: CounterUpdate, reason: Option<string>)
    requires RowAt(Run(EMPTY, before), key) == Some(row) && row.state.Previous?
    requires !Unmoved(row, RowAt(Run(Run(EMPTY, before), between), key))
    ensures var u := Run(Run(Run(EMPTY, before), between), after);
            var token := TokenOf(row);
            && RowAt(u, key).Some?
            && !(RowAt(u, key).value.state.Previous? && TokenOf(RowAt(u, key).value) == token)
            && MarkPrevious(u, key, next, Some(token), counters, reason).0 == u
            && Retire(u, key, Some(token), reason).0 == u
  {
    var s := Run(EMPTY, before);
    var t := Run(s, between);
    Reachable(before);
    RunKeeps(s, between);
    RunMovesForward(s, between, key);
    RunMovesForward(t, after, key);
  }

  ghost function RowAt(s: Store, key: Key): Option<Row> {
    if key in s.rows then Some(s.rows[key]) else None
  }

  ghost predicate Unmoved(row: Row, now: Option<Row>) {
    now.Some? && SameRow(row, now.value)
  }

  // ---------------------------------------------------------------- the drain gate

  predicate IsDrained(row: Row) {
    row.drain == Some(Drained)
  }

  ghost predicate GateSound(rows: map<Key, Row>, sc: Scope) {
    forall pick, mail | Fetched(rows, sc, pick) && GateOpen(rows, sc, pick) && HasState(rows, sc, mail, Previous) ::
      IsDrained(rows[Key(sc, mail)])
  }

  ghost predicate Mixed(rows: map<Key, Row>, sc: Scope) {
    exists a, b :: && HasState(rows, sc, a, Previous) && IsDrained(rows[Key(sc, a)])
                   && HasState(rows, sc, b, Previous) && !IsDrained(rows[Key(sc, b)])
  }

  lemma GateExactFor(rows: map<Key, Row>, sc: Scope)
    requires forall mail | HasState(rows, sc, mail, Previous) :: rows[Key(sc, mail)].drain.Some?
    ensures GateSound(rows, sc) <==> !Mixed(rows, sc)
  {
    if Mixed(rows, sc) {
      var a, b :| && HasState(rows, sc, a, Previous) && IsDrained(rows[Key(sc, a)])
                  && HasState(rows, sc, b, Previous) && !IsDrained(rows[Key(sc, b)]);
      assert Fetched(rows, sc, Some(a)) && GateOpen(rows, sc, Some(a));
    } else {
      forall pick, mail | Fetched(rows, sc, pick) && GateOpen(rows, sc, pick) && HasState(rows, sc, mail, Previous)
        ensures IsDrained(rows[Key(sc, mail)])
      {
        assert HasState(rows, sc, pick.value, Previous) && IsDrained(rows[Key(sc, pick.value)]);
      }
    }
  }

  /** The gate is meant to refuse a new name while some previous mailbox is not drained.  It reads one
      previous row, so it does its duty, whichever row that is, exactly when the previous rows of the
      scope are all drained or all not drained. */
  lemma GateExact(steps: seq<Step>, sc: Scope)
    ensures GateSound(Run(EMPTY, steps).rows, sc) <==> !Mixed(Run(EMPTY, steps).rows, sc)
  {
    var s := Run(EMPTY, steps);
    Reachable(steps);
    forall mail | HasState(s.rows, sc, mail, Previous) ensures s.rows[Key(sc, mail)].drain.Some? {
      PreviousFacts(s, Key(sc, mail));
    }
    GateExactFor(s.rows, sc);
  }

  const DEMO := Scope("issuer", Team, "demo")
  const NO_ROUTE := Route(None, None, None, None, None)
  const NO_COUNTS := CounterUpdate(None, None, None, None)

  function Take(mail: string, version: int, pick: Option<string>): Step {
    DoBind(DEMO, mail, NO_ROUTE, Some(version), pick)
  }

  lemma {:induction false} TakeIs(s: Store, active: Option<string>, mail: string, version: int, pick: Option<string>)
    requires Inv(s) && Fetched(s.rows, DEMO, pick) && GateOpen(s.rows, DEMO, pick)
    requires ValidMail(mail) && active != Some(mail) && VersionOf(s.rows, DEMO, active) == version
    requires if active.None? then s.rows == map[] else HasState(s.rows, DEMO, active.value, Active)
    ensures Next(s, Take(mail, version, pick)) == TakeOver(s, DEMO, active, mail, NO_ROUTE)
    ensures Inv(Next(s, Take(mail, version, pick)))
  {
    ActiveIsUnique(s, DEMO);
    NextKeeps(s, Take(mail, version, pick));
  }

  const A_DRAINED := DoDrain(Key(DEMO, "a"), Drained, Some(Token(1, Some(3), Draining, 0)), NO_COUNTS, None)

  lemma Extend(steps: seq<Step>, step: Step)
    ensures Run(EMPTY, steps + [step]) == Next(Run(EMPTY, steps), step)
  {
    assert (steps + [step])[..|steps|] == steps;
  }

  lemma BindA() returns (steps: seq<Step>, s: Store)
    ensures s == Run(EMPTY, steps) && Inv(s)
    ensures s.rows.Keys == {Key(DEMO, "a")} && HasState(s.rows, DEMO, "a", Active)
    ensures TokenOf(s.rows[Key(DEMO, "a")]) == Token(1, Some(0), Pending, 0) && s.rows[Key(DEMO, "a")].drain.None?
    ensures s.nextId == 3
  {
    assert Inv(EMPTY);
    TakeIs(EMPTY, None, "a", 0, None);
    Extend([], Take("a", 0, None));
    steps := [] + [Take("a", 0, None)];
    s := TakeOver(EMPTY, DEMO, None, "a", NO_ROUTE);
  }

  lemma ThenBindB(before: seq<Step>, s: Store) returns (steps: seq<Step>, t: Store)
    requires s == Run(EMPTY, before) && Inv(s)
    requires s.rows.Keys == {Key(DEMO, "a")} && HasState(s.rows, DEMO, "a", Active)
    requires TokenOf(s.rows[Key(DEMO, "a")]) == Token(1, Some(0), Pending, 0) && s.rows[Key(DEMO, "a")].drain.None?
    requires s.nextId == 3
    ensures t == Run(EMPTY, steps) && Inv(t)
    ensures HasState(t.rows, DEMO, "a", Previous) && TokenOf(t.rows[Key(DEMO, "a")]) == Token(1, Some(3), Draining, 0)
    ensures HasState(t.rows, DEMO, "b", Active) && t.rows[Key(DEMO, "b")].version == 2
    ensures t.rows[Key(DEMO, "b")].drain.None?
  {
    TakeIs(s, Some("a"), "b", 1, None);
    Extend(before, Take("b", 1, None));
    steps := before + [Take("b", 1, None)];
    t := TakeOver(s, DEMO, Some("a"), "b", NO_ROUTE);
  }

  lemma ThenDrainA(before: seq<Step>, s: Store) returns (steps: seq<Step>, t: Store)
    requires s == Run(EMPTY, before) && Inv(s)
    requires HasState(s.rows, DEMO, "a", Previous) && TokenOf(s.rows[Key(DEMO, "a")]) == Token(1, Some(3), Draining, 0)
    ensures t == Run(EMPTY, steps) && Inv(t)
    ensures HasState(t.rows, DEMO, "a", Previous) && IsDrained(t.rows[Key(DEMO, "a")])
    ensures forall key | key != Key(DEMO, "a") && key in s.rows :: key in t.rows && t.rows[key] == s.rows[key]
  {
    NextKeeps(s, A_DRAINED);
    Extend(before, A_DRAINED);
    steps := before + [A_DRAINED];
    t := DrainedTo(s, Key(DEMO, "a"), Drained, NO_COUNTS, None);
  }

  /** The gate reads the drained row of a; the row that steps down keeps `draining`. */
  lemma ThenBindNext(before: seq<Step>, s: Store, active: string, mail: string, version: int)
    returns (steps: seq<Step>, t: Store)
    requires s == Run(EMPTY, before) && Inv(s)
    requires HasState(s.rows, DEMO, "a", Previous) && IsDrained(s.rows[Key(DEMO, "a")])
    requires HasState(s.rows, DEMO, active, Active) && s.rows[Key(DEMO, active)].version == version
    requires s.rows[Key(DEMO, active)].drain.None?
    requires ValidMail(mail) && mail != active && mail != "a"
    ensures t == Run(EMPTY, steps) && Inv(t)
    ensures HasState(t.rows, DEMO, active, Previous) && !IsDrained(t.rows[Key(DEMO, active)])
    ensures HasState(t.rows, DEMO, mail, Active) && t.rows[Key(DEMO, mail)].version == version + 1
    ensures t.rows[Key(DEMO, mail)].drain.None?
    ensures forall key | key != Key(DEMO, mail) && key != Key(DEMO, active) && key in s.rows ::
              key in t.rows && t.rows[key] == s.rows[key]
  {
    TakeIs(s, Some(active), mail, version, Some("a"));
    Extend(before, Take(mail, version, Some("a")));
    steps := before + [Take(mail, version, Some("a"))];
    t := TakeOver(s, DEMO, Some(active), mail, NO_ROUTE);
    SteppedAside(s, active, mail, version);
  }

  lemma SteppedAside(s: Store, active: string, mail: string, version: int)
    requires HasState(s.rows, DEMO, active, Active) && s.rows[Key(DEMO, active)].version == version
    requires s.rows[Key(DEMO, active)].drain.None? && mail != active
    ensures var t := TakeOver(s, DEMO, Some(active), mail, NO_ROUTE);
            && HasState(t.rows, DEMO, active, Previous) && !IsDrained(t.rows[Key(DEMO, active)])
            && HasState(t.rows, DEMO, mail, Active) && t.rows[Key(DEMO, mail)].version == version + 1
            && t.rows[Key(DEMO, mail)].drain.None?
            && (forall key | key != Key(DEMO, mail) && key != Key(DEMO, active) && key in s.rows ::
                  key in t.rows && t.rows[key] == s.rows[key])
  {
  }

  ghost predicate TwoUndrained(s: Store) {
    && HasState(s.rows, DEMO, "b", Previous) && !IsDrained(s.rows[Key(DEMO, "b")])
    && HasState(s.rows, DEMO, "c", Previous) && !IsDrained(s.rows[Key(DEMO, "c")])
  }

  /** a, b, drain a, c, d: when the gate reads the drained row of a, both b and c stay undrained. */
  lemma GateCanBePassedTwice()
    ensures exists steps :: TwoUndrained(Run(EMPTY, steps))
  {
    var steps, s := BindA();
    steps, s := ThenBindB(steps, s);
    steps, s := ThenDrainA(steps, s);
    steps, s := ThenBindNext(steps, s, "b", "c", 2);
    steps, s := ThenBindNext(steps, s, "c", "d", 3);
    assert TwoUndrained(Run(EMPTY, steps));
  }

  /** A bind that changes the name. */
  ghost predicate TakesOver(s: Store, step: Step) {
    step.DoBind? && Next(s, step) != s && ActiveMail(s.rows, step.sc) != Some(step.mail)
  }

  /** Each drained row is retired before its scope changes its name again. */
  ghost predicate Tidy(s: Store, steps: seq<Step>) {
    steps == [] ||
    var front, step := steps[..|steps| - 1], steps[|steps| - 1];
    && Tidy(s, front)
    && (TakesOver(Run(s, front), step) ==>
          forall mail | HasState(Run(s, front).rows, step.sc, mail, Previous) ::
              !IsDrained(Run(s, front).rows[Key(step.sc, mail)]))
  }

  ghost predicate OnePrevious(rows: map<Key, Row>) {
    forall k, l | k in rows && l in rows && k.scope == l.scope
                  && rows[k].state.Previous? && rows[l].state.Previous? :: k == l
  }

  /** In such runs a scope has at most one previous row, so the gate reads the only one. */
  lemma {:induction false} TidyRunsKeepOnePrevious(steps: seq<Step>)
    requires Tidy(EMPTY, steps)
    ensures OnePrevious(Run(EMPTY, steps).rows)
  {
    if steps != [] {
      var front, step := steps[..|steps| - 1], steps[|steps| - 1];
      TidyRunsKeepOnePrevious(front);
      Reachable(front);
      var s := Run(EMPTY, front);
      if TakesOver(s, step) {
        TakeOverLeavesOne(s, step);
      } else {
        OtherStepsAddNone(s, step);
      }
    }
  }

  lemma OtherStepsAddNone(s: Store, step: Step)
    requires !TakesOver(s, step)
    ensures forall key | key in Next(s, step).rows && Next(s, step).rows[key].state.Previous? ::
              key in s.rows && s.rows[key].state.Previous?
  {
  }

  lemma TakeOverLeavesOne(s: Store, step: Step)
    requires Inv(s) && OnePrevious(s.rows) && TakesOver(s, step)
    requires forall mail | HasState(s.rows, step.sc, mail, Previous) :: !IsDrained(s.rows[Key(step.sc, mail)])
    ensures OnePrevious(Next(s, step).rows)
  {
    forall mail | HasState(s.rows, step.sc, mail, Previous) ensures s.rows[Key(step.sc, mail)].drain.Some? {
      PreviousFacts(s, Key(step.sc, mail));
    }
    assert forall mail :: !HasState(s.rows, step.sc, mail, Previous);
    var t := Next(s, step);
    ActiveIsUnique(s, step.sc);
    forall k, l | k in t.rows && l in t.rows && k.scope == l.scope
                  && t.rows[k].state.Previous? && t.rows[l].state.Previous?
      ensures k == l
    {
      assert k.scope == step.sc ==> !HasState(s.rows, step.sc, k.mail, Previous);
      assert l.scope == step.sc ==> !HasState(s.rows, step.sc, l.mail, Previous);
    }
  }
}

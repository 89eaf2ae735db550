/**
 The fan-out beside the binding store: which events it never sends.

 The core takes up only events of the version it is bound to.  As long as events are entered while it is
 bound to the active row, an event that nobody took up before the row changed is never prompted for and
 never marked.  Every drain and retirement event is like that from the start, as it bears the version of
 a row that has stepped down.
 */
module FanOutStore {
  import opened Prelude
  import opened ReceiptKeys
  import opened Delivery
  import opened ProofAdapter
  import opened Wiring
  import opened Untaken
  import opened FanOut
  import B = Binding
  import BR = BindingRuns
  import BT = BindingTheorems
  import D = DeliveryRuns

  // ---------------------------------------------------------------- store and process

  /** The event id of an outbox row. */
  function Name(n: nat): string {
    Digits(n)
  }

  lemma {:induction false} NameIsNoMail(n: nat)
    ensures '0' <= Name(n)[0] <= '9' && !(MAIL_PREFIX <= Name(n))
  {
    if n >= 10 { NameIsNoMail(n / 10); }
    assert MAIL_PREFIX[0] == 'm';
  }

  datatype Joint = Joint(store: B.Store, fan: Fan)

  datatype Move =
    /** Any transaction but a mark. */
    | Transact(action: BR.Step)
    /** Any step of the wiring but the check of a control event. */
    | Work(step: Wiring.Step)
    /** The fan-out works on an event of the page it reads. */
    | Check(e: B.ControlEvent, text: string, created: real)
    | Read(e: B.ControlEvent)
    | Look(e: B.ControlEvent)
    | Send(part: FanStep)
    | Mark(n: nat, ok: bool)

  /** The process works for one scope; events of other scopes go to other cores.  `limit` bounds a page. */
  datatype Office = Office(sc: B.Scope, given: bool, limit: int)

  ghost predicate Listed(o: Office, j: Joint, e: B.ControlEvent) {
    e.scope == o.sc && e in B.Page(j.store.events, o.sc.issuer, o.limit)
  }

  ghost function OnFan(o: Office, j: Joint, step: FanStep): Joint {
    j.(fan := FanNext(o.given, j.fan, step))
  }

  /** A move that is not enabled leaves everything alone. */
  ghost function After(o: Office, j: Joint, move: Move): Joint {
    match move
    case Transact(step) => if step.DoMark? then j else j.(store := BR.Next(j.store, step))
    case Work(step) => if step.CheckControl? then j else OnFan(o, j, OnWire(step))
    case Check(e, text, created) =>
      if Listed(o, j, e) then OnFan(o, j, OnWire(CheckControl(e.version, Name(e.id), text, created))) else j
    case Read(e) => if Listed(o, j, e) then OnFan(o, j, ReadMarker(Name(e.id))) else j
    case Look(e) => if Listed(o, j, e) then OnFan(o, j, SeeProof(Name(e.id))) else j
    case Send(step) => if step.Transport? || step.Note? then OnFan(o, j, step) else j
    case Mark(n, ok) =>
      var t := OnFan(o, j, MarkFanned(Name(n), ok));
      if AtStage(j.fan, Name(n), Ready) && ok
      then t.(store := B.MarkFannedOut(j.store, o.sc.issuer, n)) else t
  }

  /** Control events are entered while the core is bound to the active row. */
  ghost predicate Synced(o: Office, j: Joint, move: Move) {
    move.Work? && move.step.Enter? && !(MAIL_PREFIX <= move.step.event.id) ==>
      j.fan.wire.sys.core.active == Some(BT.Current(j.store, o.sc))
  }

  ghost function RunFrom(o: Office, j: Joint, moves: seq<Move>): Joint {
    if moves == [] then j else After(o, RunFrom(o, j, moves[..|moves| - 1]), moves[|moves| - 1])
  }

  const BEGIN := Joint(B.EMPTY, FanOut.START)

  ghost predicate AlwaysSynced(o: Office, j: Joint, moves: seq<Move>) {
    moves == [] ||
    var front, last := moves[..|moves| - 1], moves[|moves| - 1];
    AlwaysSynced(o, j, front) && Synced(o, RunFrom(o, j, front), last)
  }

  // ---------------------------------------------------------------- an event nobody has taken up

  /** Neither pending nor in a delivery, neither marker nor proof, and no work of the fan-out on it. */
  ghost predicate Untouched(f: Fan, id: string) {
    Outside(f.wire, id) && id !in f.stage && id !in f.fanned
  }

  /** Whoever holds the event on its way in holds it under this version. */
  ghost predicate HeldAs(f: Fan, id: string, version: int) {
    forall e | e in f.wire.checked && e.id == id :: e.version == version
  }

  /** Nobody has taken the event up, and nobody can while the core is bound to the active row. */
  ghost predicate Lost(o: Office, j: Joint, e: B.ControlEvent) {
    && e.scope == o.sc && !e.fannedOut && e.version < BT.Current(j.store, o.sc)
    && Untouched(j.fan, Name(e.id)) && HeldAs(j.fan, Name(e.id), e.version)
  }

  /** Events of old rows, and any others that are watched by their numbers. */
  predicate Watched(o: Office, ids: set<nat>, e: B.ControlEvent) {
    e.scope == o.sc && (BT.FromOldRow(e) || e.id in ids)
  }

  /** The watched events are lost, and nobody has got hold of a number to come. */
  ghost predicate Aside(o: Office, j: Joint, ids: set<nat>) {
    && (forall e | e in j.store.events && Watched(o, ids, e) :: Lost(o, j, e))
    && (forall n: nat | n >= j.store.nextId ::
          n !in ids && Untouched(j.fan, Name(n)) && forall e | e in j.fan.wire.checked :: e.id != Name(n))
  }

  ghost predicate Good(o: Office, j: Joint, ids: set<nat>) {
    Base(j.fan.wire) && BR.Inv(j.store) && BT.Outdated(j.store) && Aside(o, j, ids)
  }

  // ---------------------------------------------------------------- moves

  lemma NamesDiffer(s: B.Store, a: B.ControlEvent, b: B.ControlEvent)
    requires BR.IdsOk(s) && a in s.events && b in s.events && Name(a.id) == Name(b.id)
    ensures a == b
  {
    DigitsInjective(a.id, b.id);
    var i :| 0 <= i < |s.events| && s.events[i] == a;
    var j :| 0 <= j < |s.events| && s.events[j] == b;
    assert i == j;
  }

  /** One event of an old row, or one number to come, after a step of the wiring. */
  lemma WireUntouched(o: Office, j: Joint, step: Wiring.Step, id: string)
    requires Base(j.fan.wire) && Untouched(j.fan, id) && !(MAIL_PREFIX <= id) && !step.CheckControl?
    requires step.Enter? && step.event in j.fan.wire.checked && step.event.id == id ==>
               j.fan.wire.sys.core.active != Some(step.event.version)
    ensures var f := OnFan(o, j, OnWire(step)).fan;
            Untouched(f, id) && forall e | e in f.wire.checked && e.id == id :: e in j.fan.wire.checked
  {
    if step.Enter? && step.event !in j.fan.wire.checked {
      assert Wiring.Next(j.fan.wire, step) == j.fan.wire;
    } else {
      WireOut(j.fan.wire, step, id);
    }
  }

  lemma WireAside(o: Office, j: Joint, ids: set<nat>, step: Wiring.Step)
    requires Good(o, j, ids) && Synced(o, j, Work(step)) && !step.CheckControl?
    ensures Aside(o, OnFan(o, j, OnWire(step)), ids)
  {
    var t := OnFan(o, j, OnWire(step));
    forall e | e in j.store.events && Watched(o, ids, e) ensures Lost(o, t, e) {
      assert Lost(o, j, e);
      NameIsNoMail(e.id);
      WireUntouched(o, j, step, Name(e.id));
    }
    forall n: nat | n >= j.store.nextId
      ensures Untouched(t.fan, Name(n)) && forall x | x in t.fan.wire.checked :: x.id != Name(n)
    {
      NameIsNoMail(n);
      WireUntouched(o, j, step, Name(n));
    }
  }

  /** The process changes, the store does not, and only this event gets hold of anything new. */
  lemma OthersAside(o: Office, j: Joint, ids: set<nat>, f: Fan, e: B.ControlEvent)
    requires Good(o, j, ids) && e in j.store.events
    requires forall id | Untouched(j.fan, id) :: Untouched(f, id)
    requires forall x | x in f.wire.checked :: x in j.fan.wire.checked || (x.id == Name(e.id) && x.version == e.version)
    ensures Aside(o, j.(fan := f), ids)
  {
    forall a | a in j.store.events && Watched(o, ids, a) ensures Lost(o, j.(fan := f), a) {
      assert Lost(o, j, a);
      if Name(a.id) == Name(e.id) { NamesDiffer(j.store, a, e); }
    }
    forall n: nat, x | n >= j.store.nextId && x in f.wire.checked ensures x.id != Name(n) {
      NumberKnown(j.store, e);
      if Name(n) == Name(e.id) { DigitsInjective(n, e.id); }
    }
  }

  lemma NumberKnown(s: B.Store, e: B.ControlEvent)
    requires BR.IdsOk(s) && e in s.events
    ensures e.id < s.nextId
  {
    var i :| 0 <= i < |s.events| && s.events[i] == e;
  }

  lemma CheckUntouched(o: Office, f: Fan, e: B.ControlEvent, text: string, created: real, id: string)
    requires Untouched(f, id)
    ensures Untouched(FanNext(o.given, f, OnWire(CheckControl(e.version, Name(e.id), text, created))), id)
  {
  }

  lemma CheckChecked(o: Office, f: Fan, e: B.ControlEvent, text: string, created: real)
    ensures var g := FanNext(o.given, f, OnWire(CheckControl(e.version, Name(e.id), text, created)));
            forall x | x in g.wire.checked :: x in f.wire.checked || (x.id == Name(e.id) && x.version == e.version)
  {
  }

  lemma FanUntouched(o: Office, f: Fan, step: FanStep, id: string)
    requires Untouched(f, id) && !step.OnWire?
    ensures var g := FanNext(o.given, f, step); Untouched(g, id) && g.wire == f.wire
  {
  }

  lemma PageMembers(o: Office, j: Joint, e: B.ControlEvent)
    requires Listed(o, j, e)
    ensures e in j.store.events && B.Unsent(e, o.sc.issuer)
  {
    BT.UnsentAreUnsent(j.store.events, o.sc.issuer, e);
  }

  lemma FanAside(o: Office, j: Joint, ids: set<nat>, step: FanStep)
    requires Good(o, j, ids) && !step.OnWire?
    ensures Aside(o, OnFan(o, j, step), ids)
  {
    forall id | Untouched(j.fan, id) ensures Untouched(FanNext(o.given, j.fan, step), id) {
      FanUntouched(o, j.fan, step, id);
    }
  }

  lemma CheckAside(o: Office, j: Joint, ids: set<nat>, e: B.ControlEvent, text: string, created: real)
    requires Good(o, j, ids) && Listed(o, j, e)
    ensures Aside(o, OnFan(o, j, OnWire(CheckControl(e.version, Name(e.id), text, created))), ids)
  {
    PageMembers(o, j, e);
    var f := FanNext(o.given, j.fan, OnWire(CheckControl(e.version, Name(e.id), text, created)));
    forall id | Untouched(j.fan, id) ensures Untouched(f, id) { CheckUntouched(o, j.fan, e, text, created, id); }
    CheckChecked(o, j.fan, e, text, created);
    OthersAside(o, j, ids, f, e);
  }

  lemma TransactAside(o: Office, j: Joint, ids: set<nat>, step: BR.Step)
    requires Good(o, j, ids) && !step.DoMark?
    ensures Aside(o, j.(store := BR.Next(j.store, step)), ids)
  {
    StoreGrows(j.store, step, o.sc);
    GrownAside(o, j, ids, BR.Next(j.store, step));
  }

  lemma StoreGrows(s: B.Store, step: BR.Step, sc: B.Scope)
    requires BR.Inv(s) && BT.Outdated(s) && !step.DoMark?
    ensures var t := BR.Next(s, step);
            && s.nextId <= t.nextId && BT.Outdated(t) && BT.Current(s, sc) <= BT.Current(t, sc)
            && forall e | e in t.events :: e in s.events || (e.id >= s.nextId && !e.fannedOut)
  {
    BT.StepAppends(s, step);
    BT.CurrentGrows(s, step, sc);
    BT.OutdatedStays(s, step);
  }

  lemma GrownAside(o: Office, j: Joint, ids: set<nat>, store: B.Store)
    requires Aside(o, j, ids) && j.store.nextId <= store.nextId && BT.Outdated(store)
    requires BT.Current(j.store, o.sc) <= BT.Current(store, o.sc)
    requires forall e | e in store.events :: e in j.store.events || (e.id >= j.store.nextId && !e.fannedOut)
    ensures Aside(o, j.(store := store), ids)
  {
  }

  lemma MarkAside(o: Office, j: Joint, ids: set<nat>, n: nat)
    requires Good(o, j, ids) && AtStage(j.fan, Name(n), Ready)
    ensures Aside(o, After(o, j, Mark(n, true)), ids)
  {
    FanAside(o, j, ids, MarkFanned(Name(n), true));
    BT.CurrentGrows(j.store, BR.DoMark(o.sc.issuer, n), o.sc);
    var t := After(o, j, Mark(n, true));
    forall e | e in t.store.events && Watched(o, ids, e) ensures Lost(o, t, e) {
      var i :| 0 <= i < |t.store.events| && t.store.events[i] == e;
      assert Watched(o, ids, j.store.events[i]);
      MarkLeavesLost(o, j, n, j.store.events[i]);
    }
  }

  /** Whatever gets marked had work of the fan-out on it. */
  lemma MarkLeavesLost(o: Office, j: Joint, n: nat, e: B.ControlEvent)
    requires AtStage(j.fan, Name(n), Ready) && Lost(o, j, e)
    ensures B.Sent(e, o.sc.issuer, n) == e
  {
  }

  lemma NextAside(o: Office, j: Joint, ids: set<nat>, move: Move)
    requires Good(o, j, ids) && Synced(o, j, move)
    ensures Aside(o, After(o, j, move), ids)
  {
    match move
    case Transact(step) => if !step.DoMark? { TransactAside(o, j, ids, step); }
    case Work(step) => if !step.CheckControl? { WireAside(o, j, ids, step); }
    case Check(e, text, created) => if Listed(o, j, e) { CheckAside(o, j, ids, e, text, created); }
    case Read(e) => FanAside(o, j, ids, ReadMarker(Name(e.id)));
    case Look(e) => FanAside(o, j, ids, SeeProof(Name(e.id)));
    case Send(step) => if step.Transport? || step.Note? { FanAside(o, j, ids, step); }
    case Mark(n, ok) =>
      if AtStage(j.fan, Name(n), Ready) && ok {
        MarkAside(o, j, ids, n);
      } else {
        FanAside(o, j, ids, MarkFanned(Name(n), ok));
      }
  }

  lemma NextGood(o: Office, j: Joint, ids: set<nat>, move: Move)
    requires Good(o, j, ids) && Synced(o, j, move)
    ensures Good(o, After(o, j, move), ids)
  {
    NextAside(o, j, ids, move);
    NextSound(o, j, move);
  }

  lemma NextSound(o: Office, j: Joint, move: Move)
    requires Base(j.fan.wire) && BR.Inv(j.store) && BT.Outdated(j.store)
    ensures var t := After(o, j, move); Base(t.fan.wire) && BR.Inv(t.store) && BT.Outdated(t.store)
  {
    if move.Transact? {
      StoreGood(j.store, move.action);
    } else if move.Mark? {
      StoreGood(j.store, BR.DoMark(o.sc.issuer, move.n));
    } else {
      ProcessGood(o, j, move);
    }
  }

  lemma ProcessGood(o: Office, j: Joint, move: Move)
    requires Base(j.fan.wire) && !move.Transact? && !move.Mark?
    ensures Base(After(o, j, move).fan.wire) && After(o, j, move).store == j.store
  {
    match move
    case Work(step) => NextBase(j.fan.wire, step);
    case Check(e, text, created) => NextBase(j.fan.wire, CheckControl(e.version, Name(e.id), text, created));
    case _ =>
  }

  lemma StoreGood(s: B.Store, step: BR.Step)
    requires BR.Inv(s) && BT.Outdated(s)
    ensures BR.Inv(BR.Next(s, step)) && BT.Outdated(BR.Next(s, step))
  {
    BR.NextKeeps(s, step);
    BT.OutdatedStays(s, step);
  }

  lemma {:induction false} AlwaysGood(o: Office, j: Joint, ids: set<nat>, moves: seq<Move>)
    requires Good(o, j, ids) && AlwaysSynced(o, j, moves)
    ensures Good(o, RunFrom(o, j, moves), ids)
  {
    if moves != [] {
      AlwaysGood(o, j, ids, moves[..|moves| - 1]);
      NextGood(o, RunFrom(o, j, moves[..|moves| - 1]), ids, moves[|moves| - 1]);
    }
  }

  lemma StartGood(o: Office)
    ensures Good(o, BEGIN, {})
  {
    D.InitialInv();
    BR.Reachable([]);
  }

  /** What the fan-out never does to an event. */
  ghost predicate NeverSent(j: Joint, e: B.ControlEvent) {
    && e in j.store.events && !e.fannedOut && Name(e.id) !in j.fan.fanned && Name(e.id) !in j.fan.wire.box.proof
    && !IsPrompted(j.fan.wire.box.ledger, ControlKey(Name(e.id))) && Name(e.id) !in Ids(j.fan.wire.sys.core.pending)
  }

  /** On every run of store and process in which events are entered while the core is bound to the active
      row, an event that only an old row writes is never prompted for, never proven and never marked as
      fanned out. */
  lemma OldRowsNeverFanned(o: Office, moves: seq<Move>, e: B.ControlEvent)
    requires AlwaysSynced(o, BEGIN, moves)
    requires e in RunFrom(o, BEGIN, moves).store.events && BT.FromOldRow(e) && e.scope == o.sc
    ensures NeverSent(RunFrom(o, BEGIN, moves), e)
  {
    StartGood(o);
    AlwaysGood(o, BEGIN, {}, moves);
    assert Lost(o, RunFrom(o, BEGIN, moves), e);
  }

  /** These events are lost at the end of `before`. */
  lemma WatchGood(o: Office, before: seq<Move>, events: seq<B.ControlEvent>, ids: set<nat>)
    requires AlwaysSynced(o, BEGIN, before) && ids == set e | e in events :: e.id
    requires var j := RunFrom(o, BEGIN, before); forall e | e in events :: e in j.store.events && Lost(o, j, e)
    ensures Good(o, RunFrom(o, BEGIN, before), ids)
  {
    StartGood(o);
    AlwaysGood(o, BEGIN, {}, before);
    var j := RunFrom(o, BEGIN, before);
    forall e | e in j.store.events && Watched(o, ids, e) ensures Lost(o, j, e) {
      if e.id in ids {
        var x :| x in events && x.id == e.id;
        NamesDiffer(j.store, x, e);
      }
    }
    forall n | n in ids ensures n < j.store.nextId {
      var x :| x in events && x.id == n;
      NumberKnown(j.store, x);
    }
  }

  lemma {:induction false} EventStays(o: Office, j: Joint, ids: set<nat>, moves: seq<Move>, e: B.ControlEvent)
    requires Good(o, j, ids) && AlwaysSynced(o, j, moves) && e in j.store.events && Lost(o, j, e) && e.id in ids
    ensures e in RunFrom(o, j, moves).store.events
  {
    if moves != [] {
      var front := moves[..|moves| - 1];
      EventStays(o, j, ids, front, e);
      AlwaysGood(o, j, ids, front);
      EventStaysOnce(o, RunFrom(o, j, front), ids, moves[|moves| - 1], e);
    }
  }

  lemma EventStaysOnce(o: Office, j: Joint, ids: set<nat>, move: Move, e: B.ControlEvent)
    requires Good(o, j, ids) && e in j.store.events && Watched(o, ids, e)
    ensures e in After(o, j, move).store.events
  {
    assert Lost(o, j, e);
    var i :| 0 <= i < |j.store.events| && j.store.events[i] == e;
    if move.Transact? && !move.action.DoMark? {
      BT.StepAppends(j.store, move.action);
      assert After(o, j, move).store.events[i] == e;
    } else if move.Mark? && AtStage(j.fan, Name(move.n), Ready) && move.ok {
      assert After(o, j, move).store.events[i] == e;
    }
  }

  /** So is, from then on, every event that nobody has taken up when the active row has a higher version. */
  lemma LostForever(o: Office, before: seq<Move>, after: seq<Move>, e: B.ControlEvent)
    requires AlwaysSynced(o, BEGIN, before) && AlwaysSynced(o, RunFrom(o, BEGIN, before), after)
    requires e in RunFrom(o, BEGIN, before).store.events && Lost(o, RunFrom(o, BEGIN, before), e)
    ensures NeverSent(RunFrom(o, RunFrom(o, BEGIN, before), after), e)
  {
    WatchGood(o, before, [e], {e.id});
    AlwaysGood(o, RunFrom(o, BEGIN, before), {e.id}, after);
    EventStays(o, RunFrom(o, BEGIN, before), {e.id}, after, e);
    assert Lost(o, RunFrom(o, RunFrom(o, BEGIN, before), after), e);
  }
}

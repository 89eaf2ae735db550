/** What events that are never sent do to all others: a page full of them is read again and again. */
module FanOutStarves {
  import opened Prelude
  import opened Wiring
  import opened FanOut
  import opened FanOutStore
  import B = Binding
  import BR = BindingRuns
  import BT = BindingTheorems

  // ---------------------------------------------------------------- starvation

  /** The page is full of lost events. */
  ghost predicate Stuck(o: Office, j: Joint) {
    var page := B.Page(j.store.events, o.sc.issuer, o.limit);
    |page| == B.Clamped(o.limit) && forall e | e in page :: Lost(o, j, e)
  }

  function PageIds(o: Office, j: Joint): set<nat> {
    set e | e in B.Page(j.store.events, o.sc.issuer, o.limit) :: e.id
  }

  lemma {:induction false} UnsentAppend(events: seq<B.ControlEvent>, e: B.ControlEvent, issuer: string)
    ensures B.UnsentEvents(events + [e], issuer) ==
            B.UnsentEvents(events, issuer) + if B.Unsent(e, issuer) then [e] else []
  {
    if events == [] {
      assert [e][1..] == [];
    } else {
      assert (events + [e])[1..] == events[1..] + [e];
      UnsentAppend(events[1..], e, issuer);
    }
  }

  /** A mark beyond the first `n` unsent events leaves these as they are. */
  lemma {:induction false} MarkBeyond(events: seq<B.ControlEvent>, issuer: string, id: nat, n: nat)
    requires n <= |B.UnsentEvents(events, issuer)|
    requires forall e | e in B.UnsentEvents(events, issuer)[..n] :: e.id != id
    ensures var after := B.UnsentEvents(B.MarkSent(events, issuer, id), issuer);
            n <= |after| && after[..n] == B.UnsentEvents(events, issuer)[..n]
  {
    if n > 0 {
      var marked, unsent := B.MarkSent(events, issuer, id), B.UnsentEvents(events, issuer);
      assert marked[1..] == B.MarkSent(events[1..], issuer, id);
      if B.Unsent(events[0], issuer) {
        assert unsent[1..] == B.UnsentEvents(events[1..], issuer) && unsent[0] in unsent[..n];
        assert unsent[..n][1..] == unsent[1..][..n - 1];
        MarkBeyond(events[1..], issuer, id, n - 1);
        assert unsent[..n] == [unsent[0]] + unsent[1..][..n - 1];
      } else {
        MarkBeyond(events[1..], issuer, id, n);
      }
    }
  }

  lemma TransactStuck(o: Office, j: Joint, step: BR.Step)
    requires Stuck(o, j) && !step.DoMark?
    ensures B.Page(BR.Next(j.store, step).events, o.sc.issuer, o.limit) == B.Page(j.store.events, o.sc.issuer, o.limit)
  {
    BT.StepAppends(j.store, step);
    var s, t := j.store.events, BR.Next(j.store, step).events;
    if t != s {
      assert t == s + [t[|s|]];
      UnsentAppend(s, t[|s|], o.sc.issuer);
    }
  }

  lemma MarkStuck(o: Office, j: Joint, n: nat)
    requires Stuck(o, j) && AtStage(j.fan, Name(n), Ready)
    ensures B.Page(B.MarkFannedOut(j.store, o.sc.issuer, n).events, o.sc.issuer, o.limit) ==
            B.Page(j.store.events, o.sc.issuer, o.limit)
  {
    forall e | e in B.Page(j.store.events, o.sc.issuer, o.limit) ensures e.id != n { assert Lost(o, j, e); }
    MarkBeyond(j.store.events, o.sc.issuer, n, B.Clamped(o.limit));
  }

  /** Nothing new gets to work in the fan-out. */
  ghost predicate NothingNew(f: Fan, g: Fan) {
    g.stage.Keys <= f.stage.Keys && g.fanned <= f.fanned + f.stage.Keys
  }

  lemma ReadStuck(o: Office, j: Joint, e: B.ControlEvent, step: FanStep)
    requires Stuck(o, j) && Listed(o, j, e)
    requires step == ReadMarker(Name(e.id)) || step == SeeProof(Name(e.id))
    ensures NothingNew(j.fan, FanNext(o.given, j.fan, step))
  {
    assert Lost(o, j, e);
  }

  lemma OtherFan(o: Office, f: Fan, step: FanStep)
    requires !step.ReadMarker? && !step.SeeProof?
    ensures NothingNew(f, FanNext(o.given, f, step))
  {
  }

  lemma NextPage(o: Office, j: Joint, move: Move)
    requires Stuck(o, j)
    ensures B.Page(After(o, j, move).store.events, o.sc.issuer, o.limit) == B.Page(j.store.events, o.sc.issuer, o.limit)
  {
    if move.Transact? {
      if !move.action.DoMark? { TransactStuck(o, j, move.action); }
    } else if move.Mark? && AtStage(j.fan, Name(move.n), Ready) && move.ok {
      MarkStuck(o, j, move.n);
    } else {
      assert After(o, j, move).store == j.store;
    }
  }

  lemma NextNothing(o: Office, j: Joint, move: Move)
    requires Stuck(o, j)
    ensures NothingNew(j.fan, After(o, j, move).fan)
  {
    match move
    case Transact(_) =>
    case Work(step) => OtherFan(o, j.fan, OnWire(step));
    case Check(e, text, created) => OtherFan(o, j.fan, OnWire(CheckControl(e.version, Name(e.id), text, created)));
    case Read(e) => if Listed(o, j, e) { ReadStuck(o, j, e, ReadMarker(Name(e.id))); }
    case Look(e) => if Listed(o, j, e) { ReadStuck(o, j, e, SeeProof(Name(e.id))); }
    case Send(step) => if step.Transport? || step.Note? { OtherFan(o, j.fan, step); }
    case Mark(n, ok) => OtherFan(o, j.fan, MarkFanned(Name(n), ok));
  }

  /** A page full of lost events stays the page for ever, and no event is fanned out any more but those
      that the fan-out had under work already: all newer events starve. */
  lemma StarvedForever(o: Office, before: seq<Move>, after: seq<Move>)
    requires AlwaysSynced(o, BEGIN, before) && Stuck(o, RunFrom(o, BEGIN, before))
    requires AlwaysSynced(o, RunFrom(o, BEGIN, before), after)
    ensures var j := RunFrom(o, BEGIN, before);
            var t := RunFrom(o, j, after);
            && B.Page(t.store.events, o.sc.issuer, o.limit) == B.Page(j.store.events, o.sc.issuer, o.limit)
            && NothingNew(j.fan, t.fan)
  {
    var j := RunFrom(o, BEGIN, before);
    var page := B.Page(j.store.events, o.sc.issuer, o.limit);
    forall e | e in page ensures e in j.store.events { PageMembers(o, j, e); }
    WatchGood(o, before, page, PageIds(o, j));
    StarvedOn(o, j, PageIds(o, j), after);
  }

  lemma StaysStuck(o: Office, j: Joint, t: Joint, ids: set<nat>)
    requires Stuck(o, j) && Good(o, t, ids) && ids == PageIds(o, j)
    requires B.Page(t.store.events, o.sc.issuer, o.limit) == B.Page(j.store.events, o.sc.issuer, o.limit)
    ensures Stuck(o, t)
  {
    forall e | e in B.Page(t.store.events, o.sc.issuer, o.limit) ensures Lost(o, t, e) {
      assert Lost(o, j, e);
      PageMembers(o, t, e);
    }
  }

  lemma {:induction false} StarvedOn(o: Office, j: Joint, ids: set<nat>, after: seq<Move>)
    requires Good(o, j, ids) && Stuck(o, j) && ids == PageIds(o, j) && AlwaysSynced(o, j, after)
    ensures var t := RunFrom(o, j, after);
            && B.Page(t.store.events, o.sc.issuer, o.limit) == B.Page(j.store.events, o.sc.issuer, o.limit)
            && NothingNew(j.fan, t.fan)
  {
    if after != [] {
      var front := after[..|after| - 1];
      StarvedOn(o, j, ids, front);
      AlwaysGood(o, j, ids, front);
      var u := RunFrom(o, j, front);
      StaysStuck(o, j, u, ids);
      NextPage(o, u, after[|after| - 1]);
      NextNothing(o, u, after[|after| - 1]);
    }
  }

  // ---------------------------------------------------------------- and it happens

  function TwoBinds(): seq<Move> {
    [Transact(BT.Take("a", 0, None)), Transact(BT.Take("b", 1, None))]
  }

  lemma FirstBound() returns (s: B.Store, e: B.ControlEvent)
    ensures s == BR.Next(B.EMPTY, BT.Take("a", 0, None)) && BR.Inv(s)
    ensures s.events == [e] && e.scope == BT.DEMO && e.version == 1 && !e.fannedOut && e.payload.BindingChanged?
    ensures B.HasState(s.rows, BT.DEMO, "a", B.Active) && s.rows.Keys == {B.Key(BT.DEMO, "a")}
    ensures s.rows[B.Key(BT.DEMO, "a")].version == 1
  {
    BR.Reachable([]);
    BT.TakeIs(B.EMPTY, None, "a", 0, None);
    s := BR.Next(B.EMPTY, BT.Take("a", 0, None));
    e := s.events[0];
  }

  lemma TwoBound() returns (s: B.Store, first: B.ControlEvent, second: B.ControlEvent)
    ensures s == BR.Next(BR.Next(B.EMPTY, BT.Take("a", 0, None)), BT.Take("b", 1, None))
    ensures s.events == [first, second] && first.scope == second.scope == BT.DEMO && first.version == 1
    ensures !first.fannedOut && !second.fannedOut && BT.Current(s, BT.DEMO) == 2
  {
    var one;
    one, first := FirstBound();
    BT.TakeIs(one, Some("a"), "b", 1, None);
    s := BR.Next(one, BT.Take("b", 1, None));
    second := s.events[1];
    assert B.HasState(s.rows, BT.DEMO, "b", B.Active);
    TwoVersions(first, second);
    BR.ActiveIsUnique(s, BT.DEMO);
    assert s.events == [first, second];
  }

  lemma TwoVersions(first: B.ControlEvent, second: B.ControlEvent)
    requires first.scope == second.scope == BT.DEMO && first.payload.BindingChanged? && second.payload.BindingChanged?
    ensures BR.Versions([first, second], BT.DEMO) == 2
  {
    BR.EventAppended([], first);
    BR.EventAppended([first], second);
    assert [] + [first] == [first] && [first] + [second] == [first, second];
  }

  lemma NobodyYet(id: string)
    ensures Untouched(FanOut.START, id) && forall version :: HeldAs(FanOut.START, id, version)
  {
  }

  /** Two binds without a fan-out between them, and pages of one event: the first event is lost. */
  lemma StarvationHappens()
    ensures var o := Office(BT.DEMO, true, 1);
            && AlwaysSynced(o, BEGIN, TwoBinds())
            && Stuck(o, RunFrom(o, BEGIN, TwoBinds()))
            && |B.UnsentEvents(RunFrom(o, BEGIN, TwoBinds()).store.events, BT.DEMO.issuer)| == 2
  {
    var o := Office(BT.DEMO, true, 1);
    var s, first, second := TwoBound();
    TwoMoves(o);
    NobodyYet(Name(first.id));
    var t := RunFrom(o, BEGIN, TwoBinds());
    assert B.UnsentEvents(s.events, BT.DEMO.issuer) == [first, second] by {
      assert s.events[1..] == [second] && s.events[1..][1..] == [];
    }
    assert B.Page(t.store.events, o.sc.issuer, o.limit) == [first] && Lost(o, t, first);
  }

  lemma TwoMoves(o: Office)
    ensures AlwaysSynced(o, BEGIN, TwoBinds())
    ensures RunFrom(o, BEGIN, TwoBinds()) ==
            Joint(BR.Next(BR.Next(B.EMPTY, BT.Take("a", 0, None)), BT.Take("b", 1, None)), FanOut.START)
  {
    var one := [Transact(BT.Take("a", 0, None))];
    assert TwoBinds()[..1] == one && one[..0] == [];
    assert RunFrom(o, BEGIN, []) == BEGIN;
    assert RunFrom(o, BEGIN, one) == Joint(BR.Next(B.EMPTY, BT.Take("a", 0, None)), FanOut.START);
  }
}

/**
 Where the events of one life of the process are, while binding versions come and go: nothing that was
 let through vanishes, unless it was offered under a version that was not the active one.

 The seen ids make such an event stay away for the rest of the life: no later poll offers it again.
 */
module NoLoss {
  import opened Prelude
  import opened Delivery
  import D = DeliveryRuns

  /** `offers` are the events some thread is about to ingest; the other sets are histories. */
  datatype Life = Life(
    sys: D.System,
    offers: set<Event>,
    /** Let through by the checks of a poll, and since then in the set of seen ids. */
    admitted: set<string>,
    /** Delivered under an earlier version. */
    done: set<string>,
    /** Ingested under a version that was not active. */
    stale: set<string>)

  const INITIAL := Life(D.INITIAL, {}, {}, {}, {})

  datatype Step =
    | Admit(event: Event)
    | Offer(event: Event)
    | Rebind(version: int)
    | Core(step: D.Step)

  ghost function OfferIds(s: Life): set<string> {
    set e | e in s.offers :: e.id
  }

  /** The cleared events of a switch, to be offered under the new version. */
  ghost function Handed(cleared: seq<Event>, version: int): set<Event> {
    set e | e in Relabelled(cleared, version)
  }

  ghost function Next(s: Life, step: Step): Life {
    match step
    case Admit(e) => s.(offers := s.offers + {e}, admitted := s.admitted + {e.id})
    case Offer(e) =>
      if e !in s.offers then s
      else s.(sys := D.Next(s.sys, D.DoIngest(e)), offers := s.offers - {e},
              stale := if s.sys.core.active == Some(e.version) then s.stale else s.stale + {e.id})
    case Rebind(version) =>
      s.(sys := D.Next(s.sys, D.DoBind(version)), offers := s.offers + Handed(Bind(s.sys.core, version).1, version),
         done := if s.sys.core.active == Some(version) then s.done else s.done + s.sys.core.delivered)
    case Core(d) => if d.DoBind? || d.DoIngest? then s else s.(sys := D.Next(s.sys, d))
  }

  ghost function Run(steps: seq<Step>): Life {
    if steps == [] then INITIAL else Next(Run(steps[..|steps| - 1]), steps[|steps| - 1])
  }

  // ---------------------------------------------------------------- nothing vanishes

  /** Every place an admitted event may be in. */
  ghost function Places(s: Life): set<string> {
    OfferIds(s) + Ids(s.sys.core.pending) + s.sys.core.delivered + s.done + s.stale
  }

  ghost predicate Kept(s: Life) {
    D.Inv(s.sys) && s.admitted <= Places(s)
  }

  lemma HandedIds(cleared: seq<Event>, version: int)
    ensures Ids(cleared) <= set e | e in Handed(cleared, version) :: e.id
  {
    RelabelledMembers(cleared, version);
    forall e | e in cleared ensures e.id in set x | x in Handed(cleared, version) :: x.id {
      assert e.(version := version) in Handed(cleared, version);
    }
    D.CoveredIds(cleared, set e | e in Handed(cleared, version) :: e.id);
  }

  /** Steps without a switch forget nothing that is pending or delivered. */
  lemma EnteredStays(s: D.System, step: D.Step)
    requires D.Inv(s) && !step.DoBind?
    ensures var t := D.Next(s, step);
            D.Inv(t) && Ids(s.core.pending) + s.core.delivered <= Ids(t.core.pending) + t.core.delivered
  {
    D.NextKeeps(s, step);
    SameGeneration(s, step);
  }

  lemma SameGeneration(s: D.System, step: D.Step)
    requires !step.DoBind?
    ensures s.entered <= D.Next(s, step).entered
  {
  }

  lemma OfferKept(s: Life, e: Event)
    requires Kept(s) && e in s.offers
    ensures Kept(Next(s, Offer(e)))
  {
    EnteredStays(s.sys, D.DoIngest(e));
    if s.sys.core.active == Some(e.version) { D.IngestEnters(s.sys, e); }
  }

  lemma RebindKept(s: Life, version: int)
    requires Kept(s)
    ensures Kept(Next(s, Rebind(version)))
  {
    D.BindKeeps(s.sys, version);
    HandedIds(Bind(s.sys.core, version).1, version);
  }

  lemma CoreKept(s: Life, step: D.Step)
    requires Kept(s)
    ensures Kept(Next(s, Core(step)))
  {
    if !step.DoBind? { EnteredStays(s.sys, step); }
  }

  lemma NextKept(s: Life, step: Step)
    requires Kept(s)
    ensures Kept(Next(s, step))
  {
    match step
    case Offer(e) => if e in s.offers { OfferKept(s, e); }
    case Rebind(version) => RebindKept(s, version);
    case Core(d) => CoreKept(s, d);
    case Admit(_) =>
  }

  /** For any interleaving of polls, switches with their hand-over, deliveries and adapter answers: every
      event that was let through is being offered, pending, delivered, or was offered under a version
      that was not the active one. */
  lemma {:induction false} NothingVanishes(steps: seq<Step>, id: string)
    requires id in Run(steps).admitted
    ensures var s := Run(steps);
            || (exists e | e in s.offers :: e.id == id)
            || id in Ids(s.sys.core.pending) || id in s.sys.core.delivered || id in s.done
            || id in s.stale
  {
    AlwaysKept(steps);
  }

  lemma {:induction false} AlwaysKept(steps: seq<Step>)
    ensures Kept(Run(steps))
  {
    if steps == [] {
      D.InitialInv();
    } else {
      AlwaysKept(steps[..|steps| - 1]);
      NextKept(Run(steps[..|steps| - 1]), steps[|steps| - 1]);
    }
  }

  // ---------------------------------------------------------------- and when it does

  /** A poll that still holds the row of an earlier version loses its message to a switch: it is in none
      of the other places, and only the set of seen ids remembers it. */
  lemma LateOfferVanishes(e: Event, version: int) returns (steps: seq<Step>)
    requires e.version != version
    ensures steps == [Rebind(e.version), Admit(e), Rebind(version), Offer(e)]
    ensures var s := Run(steps);
            && e.id in s.admitted && s.stale == {e.id}
            && s.offers == {} && s.sys.core.pending == [] && s.sys.core.delivered == {} && s.done == {}
  {
    var none: seq<Step> := [];
    var one := none + [Rebind(e.version)];
    RunAppend(none, Rebind(e.version));
    var two := one + [Admit(e)];
    RunAppend(one, Admit(e));
    var three := two + [Rebind(version)];
    RunAppend(two, Rebind(version));
    steps := three + [Offer(e)];
    RunAppend(three, Offer(e));
    assert Run(one).sys.core.active == Some(e.version) && Run(one).sys.core.pending == [] && Run(one).offers == {};
    assert Run(three).sys.core.active == Some(version) && Run(three).sys.core.pending == [];
    assert Run(three).offers == {e};
  }

  /** Two overlapping syncs lose a pending event: the first still holds what it cleared when the second
      announces another version, and the ingest under the first version is stale. */
  lemma OverlappingSyncsVanish(e: Event, second: int, third: int) returns (steps: seq<Step>)
    requires e.version != second && second != third
    ensures steps == [Rebind(e.version), Admit(e), Offer(e), Rebind(second), Rebind(third),
                      Offer(e.(version := second))]
    ensures Ids(Run([Rebind(e.version), Admit(e), Offer(e)]).sys.core.pending) == {e.id}
    ensures var s := Run(steps);
            && e.id in s.admitted && s.stale == {e.id}
            && s.offers == {} && s.sys.core.pending == [] && s.sys.core.delivered == {} && s.done == {}
  {
    var handed := e.(version := second);
    var three := [Rebind(e.version), Admit(e), Offer(e)];
    PendingFirst(e);
    var four := three + [Rebind(second)];
    RunAppend(three, Rebind(second));
    HandedOne(e, second);
    var five := four + [Rebind(third)];
    RunAppend(four, Rebind(third));
    assert Run(five).offers == {handed} && Run(five).sys.core.active == Some(third);
    steps := five + [Offer(handed)];
    RunAppend(five, Offer(handed));
  }

  lemma HandedOne(e: Event, version: int)
    ensures Handed([e], version) == {e.(version := version)} && Handed([], version) == {}
  {
    var none: seq<Event> := [];
    assert [e][..0] == none && Relabelled(none, version) == none;
    assert Relabelled([e], version) == [e.(version := version)];
  }

  lemma PendingFirst(e: Event)
    ensures var s := Run([Rebind(e.version), Admit(e), Offer(e)]);
            && s.sys.core.active == Some(e.version) && s.sys.core.pending == [e] && s.sys.core.delivered == {}
            && s.offers == {} && s.admitted == {e.id} && s.done == {} && s.stale == {}
    ensures Ids([e]) == {e.id}
  {
    var none: seq<Step> := [];
    var one := none + [Rebind(e.version)];
    RunAppend(none, Rebind(e.version));
    HandedOne(e, e.version);
    var two := one + [Admit(e)];
    RunAppend(one, Admit(e));
    RunAppend(two, Offer(e));
    assert two + [Offer(e)] == [Rebind(e.version), Admit(e), Offer(e)];
    assert Run(two).sys.core.pending == [] && Run(two).sys.core.active == Some(e.version);
    assert [] + [e] == [e] && [e][..0] == [];
  }

  lemma RunAppend(steps: seq<Step>, step: Step)
    ensures Run(steps + [step]) == Next(Run(steps), step)
  {
    assert (steps + [step])[..|steps|] == steps;
  }
}

/**
 When a receipt key is prompted at most once over all restarts and all binding versions.

 Three things that whoever acts can check beforehand: a pause finds no marker on its receipt, a switch
 goes to a higher version while no delivery is under way, and the event of an outbox row is checked
 under the version of that row.  Then only a failing write of a delivered mark can repeat a prompt.
 */
module OrderlyRuns {
  import opened Wiring
  import opened WiringRuns
  import opened OrderlySteps

  lemma NextUndisturbed(s: Wire, step: Step)
    requires !s.disturbed && !Mixed(s.box) && PauseUnmarked(s, step)
    ensures !Next(s, step).disturbed
  {
  }

  lemma {:induction false} NeverDisturbed(own: string -> int, steps: seq<Step>)
    requires !Run(steps).failed && Orderly(own, steps)
    ensures !Run(steps).disturbed && Tidy(own, Run(steps))
  {
    if steps != [] {
      var front := steps[..|steps| - 1];
      DisturbedStays(Run(front), steps[|steps| - 1]);
      NeverDisturbed(own, front);
      Reachable(front);
      ProofIsAccepted(front);
      SmoothIsNotMixed(Run(front));
      NextUndisturbed(Run(front), steps[|steps| - 1]);
      NextTidy(own, Run(front), steps[|steps| - 1]);
    }
  }

  /** With crashes at any point, switches between deliveries, any write failing except that of a delivered
      mark, and pauses only of receipts without a marker: the wrapped adapter accepts each receipt key at
      most once over all restarts. */
  lemma AtMostOnceAcrossCrashes(own: string -> int, steps: seq<Step>)
    requires !Run(steps).failed && Orderly(own, steps)
    ensures var s := Run(steps); NoDup(s.log) && Covered(s.log, s.box.ledger)
  {
    NeverDisturbed(own, steps);
    AtMostOnce(steps);
  }
}

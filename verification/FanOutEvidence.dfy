/** When a control event that is marked as fanned out was prompted or is still marked as prompted. */
module FanOutEvidence {
  import opened ReceiptKeys
  import opened ProofAdapter
  import opened MarkerEvidence
  import opened MarkerLoss
  import opened FanOut

  /** The fan-out takes the marker of this event as evidence. */
  ghost predicate Reads(f: Fan, id: string) {
    !(MAIL_PREFIX <= id) && id !in f.fanned && IsPrompted(f.wire.box.ledger, ControlKey(id))
  }

  /** From position `from` on, the wiring of such a run never pauses this event's receipt and, if required,
      never steps back to a lower version. */
  ghost predicate FanUnhindered(steps: seq<FanStep>, from: nat, id: string, ahead: bool) {
    from <= |steps| && Unhindered(WireSteps(steps), |WireSteps(steps[..from])|, id, ahead)
  }

  lemma {:induction false} WireExtends(steps: seq<FanStep>, more: seq<FanStep>)
    requires steps <= more
    ensures WireSteps(steps) <= WireSteps(more)
    decreases |more|
  {
    if |steps| == |more| {
      assert steps == more;
    } else {
      WireExtends(steps, more[..|more| - 1]);
    }
  }

  /** A settled reading is evidence in every later state. */
  lemma SettledReadLasts(given: bool, steps: seq<FanStep>, more: seq<FanStep>, id: string, ahead: bool)
    requires steps <= more && FanUnhindered(more, |steps|, id, ahead) && Reads(FanRun(given, steps), id)
    requires var s := FanRun(given, steps).wire; Settled(s, id, ahead) || ControlKey(id) in s.log
    ensures Evidence(FanRun(given, more).wire, id)
  {
    assert more[..|steps|] == steps;
    WireExtends(steps, more);
    WireIsRun(given, steps);
    WireIsRun(given, more);
    assert Follows(WireSteps(steps), WireSteps(more), id, ahead);
    ReadIsSafeExactly(WireSteps(steps), id, ahead);
  }

  lemma {:induction false} ReadHappened(given: bool, steps: seq<FanStep>, id: string) returns (i: nat)
    requires id in FanRun(given, steps).read
    ensures i < |steps| && steps[i] == ReadMarker(id) && Reads(FanRun(given, steps[..i]), id)
  {
    var front := steps[..|steps| - 1];
    if id in FanRun(given, front).read {
      i := ReadHappened(given, front, id);
      assert front[..i] == steps[..i];
    } else {
      ReadNow(given, FanRun(given, front), steps[|front|], id);
      i := |front|;
    }
  }

  lemma ReadNow(given: bool, f: Fan, step: FanStep, id: string)
    requires id in FanNext(given, f, step).read && id !in f.read
    ensures step == ReadMarker(id) && Reads(f, id)
  {
  }

  /** Whenever the marker of this event was read, it was settled or the event accepted. */
  ghost predicate SettledReads(given: bool, steps: seq<FanStep>, id: string, ahead: bool) {
    forall i | 0 <= i < |steps| && steps[i] == ReadMarker(id) ::
      var f := FanRun(given, steps[..i]);
      Reads(f, id) ==> Settled(f.wire, id, ahead) || ControlKey(id) in f.wire.log
  }

  /** Then the event, once marked as fanned out, is accepted or bears its marker in every later state. */
  lemma EvidenceLasts(given: bool, steps: seq<FanStep>, more: seq<FanStep>, id: string, ahead: bool)
    requires id in FanRun(given, steps).fanned && SettledReads(given, steps, id, ahead)
    requires steps <= more && FanUnhindered(more, 0, id, ahead)
    ensures Evidence(FanRun(given, more).wire, id)
  {
    AlwaysOrdered(given, steps);
    if ControlKey(id) in FanRun(given, steps).wire.log {
      WireIsRun(given, steps);
      WireIsRun(given, more);
      WireExtends(steps, more);
      LogForever(WireSteps(steps), WireSteps(more));
    } else {
      var i := ReadHappened(given, steps, id);
      assert steps[..i] <= more && more[..i] == steps[..i];
      UnhinderedLater(WireSteps(more), 0, |WireSteps(more[..i])|, id, ahead);
      SettledReadLasts(given, steps[..i], more, id, ahead);
    }
  }

  lemma {:induction false} UnhinderedLater(steps: seq<Wiring.Step>, from: nat, later: nat, id: string, ahead: bool)
    requires from <= later && Unhindered(steps, from, id, ahead)
    ensures Unhindered(steps, later, id, ahead)
  {
    if |steps| > later { UnhinderedLater(steps[..|steps| - 1], from, later, id, ahead); }
  }

  // ---------------------------------------------------------------- otherwise

  /** A run of the wiring beside the fan-out. */
  lemma {:induction false} Beside(steps: seq<FanStep>, wire: seq<Wiring.Step>, on: seq<Wiring.Step>)
    returns (more: seq<FanStep>)
    requires WireSteps(steps) == wire && wire <= on
    ensures steps <= more && WireSteps(more) == on
    decreases |on|
  {
    if |wire| == |on| {
      assert wire == on;
      more := steps;
    } else {
      var front := Beside(steps, wire, on[..|on| - 1]);
      more := front + [OnWire(on[|on| - 1])];
      assert more[..|front|] == front;
    }
  }

  lemma FannedGrows(given: bool, f: Fan, step: FanStep)
    ensures f.fanned <= FanNext(given, f, step).fanned
  {
  }

  lemma {:induction false} FannedForever(given: bool, steps: seq<FanStep>, more: seq<FanStep>)
    requires steps <= more
    ensures FanRun(given, steps).fanned <= FanRun(given, more).fanned
    decreases |more|
  {
    if |steps| == |more| {
      assert steps == more;
    } else {
      FannedForever(given, steps, more[..|more| - 1]);
      FannedGrows(given, FanRun(given, more[..|more| - 1]), more[|more| - 1]);
    }
  }

  /** The event is fanned out at once after its marker was read. */
  lemma FannedAtOnce(given: bool, steps: seq<FanStep>, id: string) returns (more: seq<FanStep>)
    requires Reads(FanRun(given, steps), id)
    ensures more == steps + [ReadMarker(id), Transport(id, true), Note(id, true), MarkFanned(id, true)]
    ensures id in FanRun(given, more).fanned && WireSteps(more) == WireSteps(steps)
  {
    var one := steps + [ReadMarker(id)];
    FanAppend(given, steps, ReadMarker(id));
    var two := one + [Transport(id, true)];
    FanAppend(given, one, Transport(id, true));
    var three := two + [Note(id, true)];
    FanAppend(given, two, Note(id, true));
    more := three + [MarkFanned(id, true)];
    FanAppend(given, three, MarkFanned(id, true));
    ProvenFinishes(given, FanRun(given, one), id);
  }

  /** A reading that is not settled can end with the event marked, never prompted and without a marker. */
  lemma UnsettledReadCanLose(given: bool, steps: seq<FanStep>, id: string, ahead: bool) returns (more: seq<FanStep>)
    requires Reads(FanRun(given, steps), id)
    requires var s := FanRun(given, steps).wire; !Settled(s, id, ahead) && ControlKey(id) !in s.log
    ensures ReadsOn(steps, more, id, ahead) && id in FanRun(given, more).fanned
    ensures !Evidence(FanRun(given, more).wire, id)
  {
    WireIsRun(given, steps);
    var on := LooseIsLost(WireSteps(steps), id, ahead);
    var fanned := FannedAtOnce(given, steps, id);
    more := Beside(fanned, WireSteps(steps), on);
    FannedForever(given, fanned, more);
    WireIsRun(given, more);
    assert steps + [ReadMarker(id)] <= fanned && more[..|steps|] == steps;
  }

  /** `more` reads the marker next, and goes on without a pause of the event's receipt. */
  ghost predicate ReadsOn(steps: seq<FanStep>, more: seq<FanStep>, id: string, ahead: bool) {
    steps + [ReadMarker(id)] <= more && FanUnhindered(more, |steps|, id, ahead)
  }

  /** The fan-out may rely on a marker, whatever follows, exactly when the marker is settled as it is
      read, or the event was accepted: a delivered mark, or an attempt whose event is not at hand. */
  lemma RelyingIsSafeExactly(given: bool, steps: seq<FanStep>, id: string, ahead: bool)
    requires Reads(FanRun(given, steps), id)
    ensures var s := FanRun(given, steps).wire;
            (Settled(s, id, ahead) || ControlKey(id) in s.log) <==>
            (forall more | ReadsOn(steps, more, id, ahead) && id in FanRun(given, more).fanned ::
               Evidence(FanRun(given, more).wire, id))
  {
    var s := FanRun(given, steps).wire;
    if Settled(s, id, ahead) || ControlKey(id) in s.log {
      forall more | ReadsOn(steps, more, id, ahead) && id in FanRun(given, more).fanned
        ensures Evidence(FanRun(given, more).wire, id)
      {
        assert steps <= more;
        SettledReadLasts(given, steps, more, id, ahead);
      }
    } else {
      var more := UnsettledReadCanLose(given, steps, id, ahead);
      assert ReadsOn(steps, more, id, ahead);
    }
  }
}

/** Fill records against stored filled quantities over every run of the system: which steps make them differ. */
module FillTracking {
  import opened Prelude
  import opened Positions
  import opened Quantities
  import opened Legs
  import opened LegFills
  import opened Executions
  import opened SystemRuns

  /** The step processes leg `l` and loses track of its fill. */
  predicate StepLosesTrack(s: Store, step: Step, l: nat) {
    step.RunLeg? && step.leg == l && Listed(s, l) && LosesTrack(s.legs[l], EventOf(s, step.env, l, step.exchange))
  }

  /** How many steps of the run have lost track of leg `l`. */
  function TrackLosses(steps: seq<Step>, l: nat): nat {
    if steps == [] then 0
    else
      var before := steps[..|steps| - 1];
      TrackLosses(before, l) + if StepLosesTrack(After(before), steps[|steps| - 1], l) then 1 else 0
  }

  /** What the fill records of a leg hold beyond its stored fill. */
  function Surplus(s: Store, l: nat): real
    requires l < |s.legs|
  {
    LegLedger(s.fills, l) - s.legs[l].filledQuantity
  }

  /** No fill is booked or stored; new legs have none. */
  ghost predicate SameFills(s: Store, t: Store) {
    && t.fills == s.fills && |s.legs| <= |t.legs|
    && (forall l :: 0 <= l < |s.legs| ==> t.legs[l].filledQuantity == s.legs[l].filledQuantity)
    && (forall l :: |s.legs| <= l < |t.legs| ==> t.legs[l].filledQuantity == 0.0)
  }

  lemma CreateCloseSameFills(s: Store, m: Market, e: nat)
    requires IsExecution(s, e) && CreateClose(s, m, e).Some?
    ensures SameFills(s, CreateClose(s, m, e).value)
  {
    CreateCloseAdds(s, m, e);
  }

  lemma ForceCloseSameFills(s: Store, m: Market, e: nat)
    requires IsExecution(s, e)
    ensures SameFills(s, ForceClose(s, m, e).0)
  {
    if CreateClose(s, m, e).Some? {
      CreateCloseSameFills(s, m, e);
      CreateCloseAdds(s, m, e);
    }
  }

  lemma ReconcileSameFills(s: Store, m: Market, e: nat)
    ensures SameFills(s, Reconcile(s, m, e))
  {
    if IsExecution(s, e) && Judge(LegStatuses(s, e)) == SomeLegFailed {
      HandleFailedSameFills(SetStatus(s, e, Broken), m, e);
    }
  }

  lemma HandleFailedSameFills(s: Store, m: Market, e: nat)
    requires IsExecution(s, e)
    ensures SameFills(s, HandleFailed(s, m, e))
  {
    ForceCloseSameFills(Abandoned(s, e), m, e);
  }

  lemma CloseStepSameFills(s: Store, m: Market, e: nat, t: Store)
    requires t.fills == s.fills
    requires t.legs == s.legs || (IsExecution(s, e) && CreateClose(s, m, e).Some? && t.legs == CreateClose(s, m, e).value.legs)
    ensures SameFills(s, t)
  {
    if IsExecution(s, e) && CreateClose(s, m, e).Some? {
      CreateCloseAdds(s, m, e);
      CreateCloseSameFills(s, m, e);
    }
  }

  /** Only processing a leg touches its fill. */
  lemma QuietStep(s: Store, step: Step)
    requires !step.RunLeg?
    ensures SameFills(s, Take(s, step))
  {
    match step
    case StartPair(m, plan) =>
    case Inspect(m, e, _) => CloseStepSameFills(s, m, e, Take(s, step));
    case RuleOff(m, _, _, e) => CloseStepSameFills(s, m, e, Take(s, step));
    case Manual(m, _, e) => CloseStepSameFills(s, m, e, Take(s, step));
  }

  /** Processing a leg changes the fill of that leg only, by its event. */
  lemma LegStep(s: Store, env: Env, l: nat, ex: Exchange, i: nat)
    requires Listed(s, l) && i < |s.legs|
    ensures var ev, t := EventOf(s, env, l, ex), ProcessLeg(s, env, l, ex);
            && |s.legs| <= |t.legs|
            && t.legs[i].filledQuantity == (if i == l then Next(s.legs[l], ev) else s.legs[i]).filledQuantity
            && LegLedger(t.fills, i) == LegLedger(s.fills, i) + if i == l then BookedBy(s.legs[l], ev) else 0.0
  {
    var ev := EventOf(s, env, l, ex);
    EventLedger(s, l, ev, i);
    ReconcileSameFills(ApplyEvent(s, l, ev), env.market, s.legs[l].executionId);
  }

  lemma NewLegsHaveNoFill(s: Store, step: Step, i: nat)
    requires |s.legs| <= i < |Take(s, step).legs| && (forall k :: 0 <= k < |s.fills| ==> s.fills[k].legId < |s.legs|)
    ensures Surplus(Take(s, step), i) == 0.0
  {
    var t := Take(s, step);
    if step.RunLeg? && Listed(s, step.leg) {
      var ev := EventOf(s, step.env, step.leg, step.exchange);
      ReconcileSameFills(ApplyEvent(s, step.leg, ev), step.env.market, s.legs[step.leg].executionId);
    } else if !step.RunLeg? {
      QuietStep(s, step);
    }
    NoRecordsNoLedger(t.fills, i);
  }

  /** A step never takes the records of a leg below its stored fill, and takes them further above exactly when it loses
      track of that leg. */
  lemma StepTracks(s: Store, step: Step, i: nat)
    requires Grounded(s) && i < |s.legs|
    ensures var t := Take(s, step);
            && i < |t.legs| && Surplus(t, i) >= Surplus(s, i)
            && (Surplus(t, i) == Surplus(s, i) <==> !StepLosesTrack(s, step, i))
  {
    if step.RunLeg? && Listed(s, step.leg) {
      LegFacts(s, step.leg);
      EventTracks(s.legs[step.leg], EventOf(s, step.env, step.leg, step.exchange));
      LegStep(s, step.env, step.leg, step.exchange, i);
    } else if !step.RunLeg? {
      QuietStep(s, step);
    }
  }

  lemma {:induction false} NothingLostBefore(steps: seq<Step>, l: nat)
    requires l >= |After(steps).legs|
    ensures TrackLosses(steps, l) == 0
  {
    if steps != [] {
      var before, step := steps[..|steps| - 1], steps[|steps| - 1];
      LegsOnlyGrow(After(before), step);
      NothingLostBefore(before, l);
    }
  }

  lemma LegsOnlyGrow(s: Store, step: Step)
    ensures |s.legs| <= |Take(s, step).legs|
  {
    if step.RunLeg? && Listed(s, step.leg) {
      LegStep(s, step.env, step.leg, step.exchange, step.leg);
    } else if !step.RunLeg? {
      QuietStep(s, step);
    }
  }

  /** In every reachable store the fill records of a leg add up to its stored filled quantity exactly when no step of the
      run has lost track of it; otherwise they add up to more. */
  lemma {:induction false} RecordsAreStoredIff(steps: seq<Step>, l: nat)
    requires l < |After(steps).legs|
    ensures Surplus(After(steps), l) >= 0.0
    ensures Surplus(After(steps), l) == 0.0 <==> TrackLosses(steps, l) == 0
  {
    if steps != [] {
      var before, step := steps[..|steps| - 1], steps[|steps| - 1];
      RunsAreSound(before, false);
      if l < |After(before).legs| {
        RecordsAreStoredIff(before, l);
        StepTracks(After(before), step, l);
      } else {
        NothingLostBefore(before, l);
        NewLegsHaveNoFill(After(before), step, l);
      }
    }
  }
}

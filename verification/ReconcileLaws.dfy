/** What reconciling and the scans promise of the whole store: doing it again changes nothing, scans are runs of atomic
    steps, and what they write is hedged and fits the positions. */
module ReconcileLaws {
  import opened Prelude
  import opened Positions
  import opened Quantities
  import opened Legs
  import opened Executions
  import opened SystemRuns
  import opened CloseTriggers

  // ------------------------------------------------------------ idempotence

  /** `t` has the positions of `s`, and its legs differ in status at most; further legs belong to other executions. */
  ghost predicate SameLegsButStatus(s: Store, t: Store, e: nat) {
    && t.positions == s.positions
    && |s.legs| <= |t.legs|
    && (forall l :: 0 <= l < |s.legs| ==> t.legs[l] == s.legs[l].(status := t.legs[l].status))
    && (forall l :: |s.legs| <= l < |t.legs| ==> t.legs[l].executionId != e)
  }

  /** A close is never its own source. */
  predicate NotOwnSource(s: Store, e: nat) {
    IsExecution(s, e) ==> s.executions[e].source != Some(e)
  }

  lemma SpentAndExposedAgain(s: Store, t: Store, e: nat)
    requires SameLegsButStatus(s, t, e)
    ensures AnyLegSpent(t, e) == AnyLegSpent(s, e)
    ensures AnyLegExposed(t, e) == AnyLegExposed(s, e)
  {
    forall l | 0 <= l < |s.legs| ensures LegExposed(t, t.legs[l]) == LegExposed(s, s.legs[l]) {}
    if AnyLegSpent(s, e) {
      var l :| 0 <= l < |s.legs| && s.legs[l].executionId == e && s.legs[l].retryCount >= MAX_RETRIES;
      assert t.legs[l].retryCount >= MAX_RETRIES;
    }
    if AnyLegExposed(s, e) {
      var l :| 0 <= l < |s.legs| && s.legs[l].executionId == e && LegExposed(s, s.legs[l]);
      assert LegExposed(t, t.legs[l]);
    }
  }

  /** Once abandoned, the legs of an execution are as final as they get. */
  lemma AbandonedTwice(s: Store, t: Store, e: nat)
    requires |s.legs| <= |t.legs| && t.legs[..|s.legs|] == Abandoned(s, e).legs
    requires forall l :: |s.legs| <= l < |t.legs| ==> t.legs[l].executionId != e
    ensures Abandoned(t, e) == t
    ensures Judge(LegStatuses(s, e)) == SomeLegFailed ==> Judge(LegStatuses(t, e)) == SomeLegFailed
  {
    forall l | 0 <= l < |t.legs| ensures Abandoned(t, e).legs[l] == t.legs[l] {
      if l < |s.legs| { assert t.legs[..|s.legs|][l] == t.legs[l]; }
    }
    assert Abandoned(t, e).legs == t.legs;
    if Judge(LegStatuses(s, e)) == SomeLegFailed { FailureLasts(s, t, e); }
  }

  lemma FailureLasts(s: Store, t: Store, e: nat)
    requires |s.legs| <= |t.legs| && t.legs[..|s.legs|] == Abandoned(s, e).legs
    requires forall l :: |s.legs| <= l < |t.legs| ==> t.legs[l].executionId != e
    requires Judge(LegStatuses(s, e)) == SomeLegFailed
    ensures Judge(LegStatuses(t, e)) == SomeLegFailed
  {
    forall l | 0 <= l < |s.legs| ensures t.legs[l] == Abandoned(s, e).legs[l] { assert t.legs[..|s.legs|][l] == t.legs[l]; }
    if LegStatus.Failed in LegStatuses(s, e) {
      var l :| 0 <= l < |s.legs| && s.legs[l].executionId == e && s.legs[l].status == LegStatus.Failed;
      assert t.legs[l].status in LegStatuses(t, e);
    } else {
      forall l | 0 <= l < |s.legs| && s.legs[l].executionId == e ensures t.legs[l] == s.legs[l] {
        assert s.legs[l].status in LegStatuses(s, e);
      }
      assert LegStatuses(t, e) == LegStatuses(s, e) by {
        forall l | 0 <= l < |s.legs| && s.legs[l].executionId == e ensures s.legs[l].status in LegStatuses(t, e) {
          assert t.legs[l].status in LegStatuses(t, e);
        }
      }
    }
  }

  /** Reconciling twice with the same positions and prices writes nothing the first time did not: the whole store is the
      same, and no second close is created. */
  lemma ReconcileIsIdempotent(s: Store, m: Market, e: nat)
    requires NotOwnSource(s, e)
    ensures Reconcile(Reconcile(s, m, e), m, e) == Reconcile(s, m, e)
  {
    if IsExecution(s, e) && Judge(LegStatuses(s, e)) == SomeLegFailed {
      var t := Reconcile(s, m, e);
      var b := SetStatus(s, e, Broken);
      if s.executions[e].action == Close { FailedCloseAgain(b, m, e); } else { FailedOpenAgain(b, m, e); }
    }
  }

  /** So it is in every reachable store. */
  lemma ReconcileTwiceOnRuns(steps: seq<Step>, m: Market, e: nat)
    ensures Reconcile(Reconcile(After(steps), m, e), m, e) == Reconcile(After(steps), m, e)
  {
    RunsAreSound(steps, false);
    if IsExecution(After(steps), e) { assert LinkedRow(After(steps).executions, e); }
    ReconcileIsIdempotent(After(steps), m, e);
  }

  lemma RestoreTwice(s: Store, e: nat, status: ExecutionStatus)
    requires IsExecution(s, e) && s.executions[e].source != Some(e)
    ensures var t := RestoreSource(s, e, status);
            && IsExecution(t, e) && t.executions[e] == s.executions[e] && RestoreSource(t, e, status) == t
            && t == s.(executions := t.executions)
  {
    var t := RestoreSource(s, e, status);
    var source := s.executions[e].source;
    if source.Some? && IsExecution(s, source.value) && s.executions[source.value].status != Closed {
      assert t.executions[source.value].status == status;
      assert SetStatus(t, source.value, status).executions == t.executions;
    }
  }

  lemma FailedCloseAgain(b: Store, m: Market, e: nat)
    requires IsExecution(b, e) && b.executions[e].action == Close && b.executions[e].source != Some(e)
    requires b.executions[e].status == Broken && Judge(LegStatuses(b, e)) == SomeLegFailed
    ensures Reconcile(HandleFailed(b, m, e), m, e) == HandleFailed(b, m, e)
  {
    var t, x, s1 := HandleFailed(b, m, e), b.executions[e], Abandoned(b, e);
    var s2 := if AnyLegSpent(b, e) then Cooldown(s1, x) else s1;
    var status := if AnyLegSpent(b, e) then Opened else Closing;
    RestoreTwice(s2, e, status);
    assert t == RestoreSource(s2, e, status);
    assert t.legs[..|b.legs|] == s1.legs;
    AbandonedTwice(b, t, e);
    SpentAndExposedAgain(b, t, e);
    StillBroken(t, m, e);
    assert AnyLegSpent(b, e) ==> Cooldown(t, x) == t;
  }

  lemma StillBroken(t: Store, m: Market, e: nat)
    requires IsExecution(t, e) && Judge(LegStatuses(t, e)) == SomeLegFailed
    ensures Reconcile(t, m, e) == HandleFailed(SetStatus(t, e, Broken), m, e)
    ensures t.executions[e].status == Broken ==> SetStatus(t, e, Broken) == t
  {
    if t.executions[e].status == Broken { assert SetStatus(t, e, Broken).executions == t.executions; }
  }

  predicate Schedules(b: Store, m: Market, e: nat)
    requires IsExecution(b, e)
  {
    AnyLegExposed(b, e) && ForceClose(Abandoned(b, e), m, e).1
  }

  /** The store after a failed opening for which no close was scheduled. */
  function Unscheduled(s: Store, e: nat, spent: bool, exposed: bool): Store
    requires IsExecution(s, e)
  {
    if spent || (exposed && CanForceClose(s.executions[e])) then Cooldown(s, s.executions[e]) else s
  }

  lemma FailedOpenAgain(b: Store, m: Market, e: nat)
    requires IsExecution(b, e) && b.executions[e].action == Open
    requires b.executions[e].status == Broken && Judge(LegStatuses(b, e)) == SomeLegFailed
    ensures Reconcile(HandleFailed(b, m, e), m, e) == HandleFailed(b, m, e)
  {
    var t := HandleFailed(b, m, e);
    FailedOpenShape(b, m, e);
    AbandonedTwice(b, t, e);
    StillBroken(t, m, e);
    FailedOpenOnceMore(b, m, e, t, SetStatus(t, e, Broken));
  }

  lemma FailedOpenOnceMore(b: Store, m: Market, e: nat, t: Store, u: Store)
    requires IsExecution(b, e) && b.executions[e].action == Open && b.executions[e].status == Broken
    requires t == HandleFailed(b, m, e) && IsExecution(t, e) && u == SetStatus(t, e, Broken)
    ensures HandleFailed(u, m, e) == t
  {
    FailedOpenShape(b, m, e);
    AbandonedTwice(b, u, e);
    SpentAndExposedAgain(b, u, e);
    FailedOpenIs(u, m, e);
    if Schedules(b, m, e) {
      ForceCloseAgain(Abandoned(b, e), m, e);
    } else {
      assert u.executions == t.executions;
      UnscheduledAgain(Abandoned(b, e), m, e, t);
    }
  }

  lemma FailedOpenIs(u: Store, m: Market, e: nat)
    requires IsExecution(u, e) && u.executions[e].action == Open && Abandoned(u, e) == u
    ensures HandleFailed(u, m, e)
            == if Schedules(u, m, e) then ForceClose(u, m, e).0 else Unscheduled(u, e, AnyLegSpent(u, e), AnyLegExposed(u, e))
  {
    if AnyLegExposed(u, e) && !Schedules(u, m, e) { UnscheduledForce(u, m, e); }
  }

  lemma UnscheduledForce(u: Store, m: Market, e: nat)
    requires IsExecution(u, e) && !ForceClose(u, m, e).1
    ensures ForceClose(u, m, e).0 == if CanForceClose(u.executions[e]) then Cooldown(u, u.executions[e]) else u
    ensures Cooldown(Cooldown(u, u.executions[e]), u.executions[e]) == Cooldown(u, u.executions[e])
  {
  }

  lemma FailedOpenShape(b: Store, m: Market, e: nat)
    requires IsExecution(b, e) && b.executions[e].action == Open && b.executions[e].status == Broken
    ensures var t, s1 := HandleFailed(b, m, e), Abandoned(b, e);
            && t == (if Schedules(b, m, e) then ForceClose(s1, m, e).0 else Unscheduled(s1, e, AnyLegSpent(b, e), AnyLegExposed(b, e)))
            && IsExecution(t, e) && t.executions[e].action == Open
            && (!Schedules(b, m, e) ==> t.executions[e].status == Broken)
            && |b.legs| <= |t.legs| && t.legs[..|b.legs|] == s1.legs && t.positions == b.positions
            && forall l :: |b.legs| <= l < |t.legs| ==> t.legs[l].executionId != e
  {
    var s1 := Abandoned(b, e);
    ForceClosedShape(s1, m, e);
    if AnyLegExposed(b, e) && !Schedules(b, m, e) { UnscheduledForce(s1, m, e); }
  }

  /** Forcing a close again finds the first one, or again finds nothing to close. */
  lemma ForceCloseAgain(s: Store, m: Market, e: nat)
    requires IsExecution(s, e) && s.executions[e].action == Open && s.executions[e].status == Broken && ForceClose(s, m, e).1
    ensures var t := ForceClose(s, m, e).0; IsExecution(t, e) && ForceClose(SetStatus(t, e, Broken), m, e) == (t, true)
  {
    ForceClosedShape(s, m, e);
    var t := ForceClose(s, m, e).0;
    var u := SetStatus(t, e, Broken);
    var x := s.executions[e];
    var i :| 0 <= i < |t.executions| && IsLiveCloseOf(t.executions[i], x.userId, x.ruleId, x.pairKey);
    assert IsLiveCloseOf(u.executions[i], x.userId, x.ruleId, x.pairKey);
    assert SetStatus(u, e, Closing).executions == t.executions;
  }

  lemma UnscheduledAgain(s: Store, m: Market, e: nat, t: Store)
    requires IsExecution(s, e) && (t == s || t == Cooldown(s, s.executions[e]))
    ensures ForceClose(t, m, e).1 == ForceClose(s, m, e).1
  {
    assert t.executions == s.executions;
    assert CreateClose(s, m, e).None? <==> CreateClose(t, m, e).None?;
  }

  /** What a forced close leaves behind: the same legs and positions, further legs of other executions. */
  lemma ForceClosedShape(s: Store, m: Market, e: nat)
    requires IsExecution(s, e) && s.executions[e].action == Open && s.executions[e].status == Broken
    ensures var (t, scheduled) := ForceClose(s, m, e);
            && IsExecution(t, e) && t.executions[e] == s.executions[e].(status := if scheduled then Closing else Broken)
            && s.legs <= t.legs && t.positions == s.positions
            && (forall l :: |s.legs| <= l < |t.legs| ==> t.legs[l].executionId != e)
            && (scheduled ==> PairBusy(t, t.executions[e]) && CanForceClose(t.executions[e]))
            && (!scheduled ==> t == s || t == Cooldown(s, s.executions[e]))
  {
    var x := s.executions[e];
    if CanForceClose(x) && !PairBusy(s, x) && CreateClose(s, m, e).Some? {
      CreateCloseAdds(s, m, e);
      var t := SetStatus(CreateClose(s, m, e).value, e, Closing);
      assert IsLiveCloseOf(t.executions[|s.executions|], x.userId, x.ruleId, x.pairKey);
    } else if CanForceClose(x) && PairBusy(s, x) {
      var i :| 0 <= i < |s.executions| && IsLiveCloseOf(s.executions[i], x.userId, x.ruleId, x.pairKey);
      assert IsLiveCloseOf(SetStatus(s, e, Closing).executions[i], x.userId, x.ruleId, x.pairKey);
    }
  }

  // ---------------------------------------------------------- scans are runs

  function Inspections(m: Market, rows: seq<ExecutionRow>, wanted: set<nat>): (steps: seq<Step>)
    ensures |steps| == |rows|
  {
    seq(|rows|, i requires 0 <= i < |rows| => Inspect(m, rows[i].id, rows[i].id in wanted))
  }

  /** A whole scan is a run of atomic steps, so all that holds over every run holds after every scan. */
  lemma {:induction false} ScanIsARun(steps: seq<Step>, m: Market, rows: seq<ExecutionRow>, wanted: set<nat>)
    ensures InspectAll(After(steps), m, rows, wanted) == After(steps + Inspections(m, rows, wanted))
  {
    var scan := Inspections(m, rows, wanted);
    if rows == [] {
      assert steps + scan == steps;
    } else {
      var n := |rows| - 1;
      ScanIsARun(steps, m, rows[..n], wanted);
      assert scan[..n] == Inspections(m, rows[..n], wanted);
      LastOfRun(steps, scan);
    }
  }

  lemma LastOfRun(steps: seq<Step>, more: seq<Step>)
    requires more != []
    ensures After(steps + more) == Take(After(steps + more[..|more| - 1]), more[|more| - 1])
  {
    assert (steps + more)[..|steps + more| - 1] == steps + more[..|more| - 1];
  }

  function RuleOffs(m: Market, userId: int, ruleId: int, rows: seq<ExecutionRow>): (steps: seq<Step>)
    ensures |steps| == |rows|
  {
    seq(|rows|, i requires 0 <= i < |rows| => RuleOff(m, userId, ruleId, rows[i].id))
  }

  /** So is switching a rule off. */
  lemma {:induction false} RuleOffIsARun(steps: seq<Step>, m: Market, userId: int, ruleId: int, rows: seq<ExecutionRow>)
    ensures CloseAllForRule(After(steps), m, userId, ruleId, rows) == After(steps + RuleOffs(m, userId, ruleId, rows))
  {
    var scan := RuleOffs(m, userId, ruleId, rows);
    if rows == [] {
      assert steps + scan == steps;
    } else {
      var n := |rows| - 1;
      RuleOffIsARun(steps, m, userId, ruleId, rows[..n]);
      assert scan[..n] == RuleOffs(m, userId, ruleId, rows[..n]);
      LastOfRun(steps, scan);
    }
  }

  // ------------------------------------------------------- sizes of new legs

  predicate FitsPosition(s: Store, m: Market, leg: Leg) {
    var held := HeldQuantity(s, LegKey(leg));
    leg.requestedQuantity > 0.0 && held > 0.0 && Covers(held, m.ToBase(leg.instrument, leg.requestedQuantity), BaseStep(m, leg.instrument))
  }

  /** Every leg of a new close asks for no more than the row it closes holds, and leaves less than one step of it. */
  lemma CloseLegsFitPositions(s: Store, m: Market, e: nat, l: nat)
    requires IsExecution(s, e) && CreateClose(s, m, e).Some? && |s.legs| <= l < |CreateClose(s, m, e).value.legs|
    ensures FitsPosition(s, m, CreateClose(s, m, e).value.legs[l])
  {
    var x := s.executions[e];
    var left, right := s.legs[FirstLeg(s.legs, e, Left).value], s.legs[FirstLeg(s.legs, e, Right).value];
    if ClosePlan(s, m, left, x.left, Sell).Some? { ClosePlanFits(s, m, left, x.left, Sell); }
    if ClosePlan(s, m, right, x.right, Buy).Some? { ClosePlanFits(s, m, right, x.right, Buy); }
  }

  lemma ClosePlanFits(s: Store, m: Market, leg: Leg, i: Instrument, side: Side)
    requires ClosePlan(s, m, leg, i, side).Some?
    ensures var held, plan := HeldQuantity(s, PositionKey(leg.accountId, i.marketType, i.symbol, leg.positionSide)), ClosePlan(s, m, leg, i, side).value;
            plan.orderQuantity > 0.0 && held > 0.0 && Covers(held, m.ToBase(i, plan.orderQuantity), BaseStep(m, i))
  {
    CloseLegFitsPosition(m, i, side, HeldQuantity(s, PositionKey(leg.accountId, i.marketType, i.symbol, leg.positionSide)));
  }

  /** The two legs of a new pair are hedged to within one step of the right market. */
  lemma NewPairIsHedged(s: Store, m: Market, p: PairPlan)
    requires OpenPair(s, m, p).Some?
    ensures var legs := OpenPair(s, m, p).value.legs;
            && |legs| == |s.legs| + 2
            && var l, r := legs[|s.legs|], legs[|s.legs| + 1];
               && Covers(m.ToBase(l.instrument, l.requestedQuantity), m.ToBase(r.instrument, r.requestedQuantity), BaseStep(m, r.instrument))
               && 0.0 < l.requestedQuantity && 0.0 < r.requestedQuantity
  {
    OpenedPairIsHedged(m, p.left, p.right, p.orderAmount);
  }
}

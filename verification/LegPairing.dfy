/** Which columns a leg shares with its execution, with its fill records and, in a close, with the leg it closes: kept by
    every step of the system. */
module LegPairing {
  import opened Prelude
  import opened Positions
  import opened Quantities
  import opened Legs
  import opened Executions
  import opened SystemRuns

  /** Left legs trade long rows and right legs short ones; legs of an opening open and legs of a close close. */
  predicate SidedLeg(leg: Leg, action: Action) {
    && leg.positionSide == (if leg.role == Left then Long else Short)
    && leg.side == (if (leg.role == Left) == (action == Open) then Buy else Sell)
  }

  /** A leg trades the instrument of its role for the user of its execution. */
  predicate BelongsTo(leg: Leg, x: Execution) {
    && leg.userId == x.userId
    && leg.instrument == (if leg.role == Left then x.left else x.right)
    && SidedLeg(leg, x.action)
  }

  /** The same account trades the same instrument in the same role the other way round. */
  predicate Reverses(leg: Leg, source: Leg) {
    && leg.accountId == source.accountId && leg.userId == source.userId && leg.role == source.role
    && leg.positionSide == source.positionSide && leg.instrument == source.instrument && leg.side != source.side
  }

  /** A closing leg reverses the first leg of its role in the opened pair. */
  predicate ReversesSource(legs: seq<Leg>, leg: Leg, source: nat) {
    var first := FirstLeg(legs, source, leg.role);
    first.Some? && Reverses(leg, legs[first.value])
  }

  predicate LegFits(s: Store, leg: Leg) {
    && IsExecution(s, leg.executionId)
    && var x := s.executions[leg.executionId];
       && BelongsTo(leg, x)
       && (x.action == Close ==> x.source.Some? && ReversesSource(s.legs, leg, x.source.value))
  }

  /** A fill record names the execution, the row and the side of its leg. */
  predicate RecordFits(legs: seq<Leg>, record: FillRecord) {
    && record.legId < |legs|
    && var leg := legs[record.legId];
       record.executionId == leg.executionId && record.key == LegKey(leg) && record.side == leg.side && record.quantity > 0.0
  }

  predicate HasBothLegs(legs: seq<Leg>, e: nat) {
    FirstLeg(legs, e, Left).Some? && FirstLeg(legs, e, Right).Some?
  }

  predicate ExecutionFits(s: Store, e: nat)
    requires IsExecution(s, e)
  {
    var x := s.executions[e];
    if x.action == Open then HasBothLegs(s.legs, e)
    else
      x.source.Some? && x.source.value < e && s.executions[x.source.value].action == Open
      && s.executions[x.source.value].left == x.left && s.executions[x.source.value].right == x.right
  }

  ghost predicate Paired(s: Store) {
    && (forall l :: 0 <= l < |s.legs| ==> LegFits(s, s.legs[l]))
    && (forall e :: 0 <= e < |s.executions| ==> ExecutionFits(s, e))
    && (forall k :: 0 <= k < |s.fills| ==> RecordFits(s.legs, s.fills[k]))
  }

  // ------------------------------------------------------- the first legs stay

  predicate SameColumns(a: Leg, b: Leg) {
    && a.executionId == b.executionId && a.userId == b.userId && a.accountId == b.accountId && a.role == b.role
    && a.positionSide == b.positionSide && a.instrument == b.instrument && a.side == b.side
  }

  /** The legs keep their fixed columns, and further legs belong to executions from `n` on. */
  ghost predicate LegsGrow(legs: seq<Leg>, next: seq<Leg>, n: nat) {
    && |legs| <= |next|
    && (forall l :: 0 <= l < |legs| ==> SameColumns(legs[l], next[l]))
    && (forall l :: |legs| <= l < |next| ==> next[l].executionId >= n)
  }

  lemma {:induction false} FirstLegStays(legs: seq<Leg>, next: seq<Leg>, n: nat, e: nat, role: LegRole)
    requires LegsGrow(legs, next, n) && e < n
    ensures FirstLeg(next, e, role) == FirstLeg(legs, e, role)
    decreases |next|
  {
    if next != [] {
      var last := |next| - 1;
      if |legs| == |next| {
        assert SameColumns(legs[last], next[last]);
        FirstLegStays(legs[..last], next[..last], n, e, role);
      } else {
        FirstLegStays(legs, next[..last], n, e, role);
      }
    }
  }

  // ---------------------------------------------------------- rows that stay

  /** The executions keep all but their status, the legs their fixed columns; fill records are added for legs only. */
  ghost predicate KeepsColumns(s: Store, t: Store) {
    && |s.executions| == |t.executions| && |s.legs| == |t.legs|
    && (forall i :: 0 <= i < |s.executions| ==> SameRow(s.executions[i], t.executions[i]))
    && (forall l :: 0 <= l < |s.legs| ==> SameColumns(s.legs[l], t.legs[l]))
    && (forall k :: 0 <= k < |t.fills| ==> (k < |s.fills| && t.fills[k] == s.fills[k]) || RecordFits(t.legs, t.fills[k]))
  }

  lemma LegStillFits(s: Store, t: Store, l: nat)
    requires l < |s.legs| <= |t.legs| && LegFits(s, s.legs[l]) && SameColumns(s.legs[l], t.legs[l])
    requires LegsGrow(s.legs, t.legs, |s.executions|) && |s.executions| <= |t.executions|
    requires forall i :: 0 <= i < |s.executions| ==> SameRow(s.executions[i], t.executions[i]) && ExecutionFits(s, i)
    ensures LegFits(t, t.legs[l])
  {
    var leg, e := s.legs[l], s.legs[l].executionId;
    assert SameRow(s.executions[e], t.executions[e]) && ExecutionFits(s, e);
    if s.executions[e].action == Close {
      var source := s.executions[e].source.value;
      FirstLegStays(s.legs, t.legs, |s.executions|, source, leg.role);
      var first := FirstLeg(s.legs, source, leg.role).value;
      assert SameColumns(s.legs[first], t.legs[first]);
    }
  }

  lemma ExecutionStillFits(s: Store, t: Store, e: nat)
    requires IsExecution(s, e) && ExecutionFits(s, e) && |s.executions| <= |t.executions|
    requires LegsGrow(s.legs, t.legs, |s.executions|)
    requires forall i :: 0 <= i < |s.executions| ==> SameRow(s.executions[i], t.executions[i])
    ensures ExecutionFits(t, e)
  {
    assert SameRow(s.executions[e], t.executions[e]);
    if s.executions[e].action == Open {
      FirstLegStays(s.legs, t.legs, |s.executions|, e, Left);
      FirstLegStays(s.legs, t.legs, |s.executions|, e, Right);
    } else {
      assert SameRow(s.executions[s.executions[e].source.value], t.executions[s.executions[e].source.value]);
    }
  }

  lemma ColumnsKept(s: Store, t: Store)
    requires Paired(s) && KeepsColumns(s, t)
    ensures Paired(t)
  {
    forall l | 0 <= l < |t.legs| ensures LegFits(t, t.legs[l]) { LegStillFits(s, t, l); }
    forall e | 0 <= e < |t.executions| ensures ExecutionFits(t, e) { ExecutionStillFits(s, t, e); }
    forall k | 0 <= k < |t.fills| ensures RecordFits(t.legs, t.fills[k]) {
      if k < |s.fills| && t.fills[k] == s.fills[k] { assert RecordFits(s.legs, s.fills[k]); }
    }
  }

  /** An execution was added with legs of its own that fit it. */
  lemma AddedFits(s: Store, t: Store, x: Execution)
    requires Paired(s) && Adds(s, t, x) && t.fills == s.fills
    requires forall l :: |s.legs| <= l < |t.legs| ==> BelongsTo(t.legs[l], x)
    requires if x.action == Open then HasBothLegs(t.legs, |s.executions|)
             else x.source.Some? && IsExecution(s, x.source.value) && s.executions[x.source.value].action == Open
                  && s.executions[x.source.value].left == x.left && s.executions[x.source.value].right == x.right
                  && forall l :: |s.legs| <= l < |t.legs| ==> ReversesSource(s.legs, t.legs[l], x.source.value)
    ensures Paired(t)
  {
    forall l | 0 <= l < |t.legs| ensures LegFits(t, t.legs[l]) {
      if l < |s.legs| {
        LegStillFits(s, t, l);
      } else if x.action == Close {
        assert ReversesSource(s.legs, t.legs[l], x.source.value);
        FirstLegStays(s.legs, t.legs, |s.executions|, x.source.value, t.legs[l].role);
      }
    }
    forall e | 0 <= e < |t.executions| ensures ExecutionFits(t, e) {
      if e < |s.executions| { ExecutionStillFits(s, t, e); }
    }
    forall k | 0 <= k < |t.fills| ensures RecordFits(t.legs, t.fills[k]) { assert RecordFits(s.legs, s.fills[k]); }
  }

  // ----------------------------------------------------------------- the steps

  lemma EventKeepsPaired(s: Store, l: nat, ev: LegEvent)
    requires Paired(s) && l < |s.legs|
    ensures Paired(ApplyEvent(s, l, ev))
  {
    ColumnsKept(s, ApplyEvent(s, l, ev));
  }

  lemma CreateClosePaired(s: Store, m: Market, e: nat)
    requires Paired(s) && IsExecution(s, e) && CreateClose(s, m, e).Some?
    ensures Paired(CreateClose(s, m, e).value)
  {
    var t := CreateClose(s, m, e).value;
    CreateCloseAdds(s, m, e);
    var left, right := FirstLeg(s.legs, e, Left).value, FirstLeg(s.legs, e, Right).value;
    assert LegFits(s, s.legs[left]) && LegFits(s, s.legs[right]);
    AddedFits(s, t, t.executions[|s.executions|]);
  }

  lemma CloseAndMarkPaired(s: Store, m: Market, e: nat)
    requires Paired(s) && IsExecution(s, e)
    ensures Paired(CloseAndMark(s, m, e))
  {
    if CreateClose(s, m, e).Some? {
      CreateClosePaired(s, m, e);
      CreateCloseAdds(s, m, e);
      ColumnsKept(CreateClose(s, m, e).value, CloseAndMark(s, m, e));
    }
  }

  lemma ForceClosePaired(s: Store, m: Market, e: nat)
    requires Paired(s) && IsExecution(s, e)
    ensures Paired(ForceClose(s, m, e).0)
  {
    CloseAndMarkPaired(s, m, e);
    ColumnsKept(s, SetStatus(s, e, Closing));
    ColumnsKept(s, Cooldown(s, s.executions[e]));
  }

  lemma ReconcilePaired(s: Store, m: Market, e: nat)
    requires Paired(s)
    ensures Paired(Reconcile(s, m, e))
  {
    if IsExecution(s, e) && Judge(LegStatuses(s, e)) == SomeLegFailed {
      ColumnsKept(s, SetStatus(s, e, Broken));
      HandleFailedPaired(SetStatus(s, e, Broken), m, e);
    } else {
      ColumnsKept(s, Reconcile(s, m, e));
    }
  }

  lemma HandleFailedPaired(s: Store, m: Market, e: nat)
    requires Paired(s) && IsExecution(s, e)
    ensures Paired(HandleFailed(s, m, e))
  {
    var s1 := Abandoned(s, e);
    ColumnsKept(s, s1);
    if s.executions[e].action == Close {
      ColumnsKept(s1, HandleFailed(s, m, e));
    } else {
      ForceClosePaired(s1, m, e);
      CooledPaired(if AnyLegExposed(s, e) then ForceClose(s1, m, e).0 else s1, s.executions[e]);
    }
  }

  lemma CooledPaired(s: Store, x: Execution)
    requires Paired(s)
    ensures Paired(Cooldown(s, x))
  {
    ColumnsKept(s, Cooldown(s, x));
  }

  lemma OpenPairPaired(s: Store, m: Market, p: PairPlan)
    requires Paired(s) && OpenPair(s, m, p).Some?
    ensures Paired(OpenPair(s, m, p).value)
  {
    var t, n := OpenPair(s, m, p).value, |s.legs|;
    assert t.legs[..n + 1] == t.legs[..|t.legs| - 1];
    assert t.legs[n].role == Left && t.legs[n + 1].role == Right;
    LaterLegIsFirst(t.legs[..n + 1], |s.executions|, Left);
    LaterLegIsFirst(t.legs, |s.executions|, Right);
    AddedFits(s, t, t.executions[|s.executions|]);
  }

  /** With a last leg of that role there is a first one. */
  lemma LaterLegIsFirst(legs: seq<Leg>, e: nat, role: LegRole)
    requires legs != [] && legs[|legs| - 1].executionId == e && legs[|legs| - 1].role == role
    ensures FirstLeg(legs, e, role).Some?
  {
  }

  lemma StepStaysPaired(s: Store, step: Step)
    requires Paired(s)
    ensures Paired(Take(s, step))
  {
    match step
    case StartPair(m, plan) => if OpenPair(s, m, plan).Some? { OpenPairPaired(s, m, plan); }
    case RunLeg(env, l, ex) =>
      if Listed(s, l) {
        EventKeepsPaired(s, l, EventOf(s, env, l, ex));
        ReconcilePaired(ApplyEvent(s, l, EventOf(s, env, l, ex)), env.market, s.legs[l].executionId);
      }
    case Inspect(m, e, _) => CloseStepPaired(s, m, e, Take(s, step));
    case RuleOff(m, _, _, e) => CloseStepPaired(s, m, e, Take(s, step));
    case Manual(m, _, e) => CloseStepPaired(s, m, e, Take(s, step));
  }

  lemma CloseStepPaired(s: Store, m: Market, e: nat, t: Store)
    requires Paired(s)
    requires t == s || (IsExecution(s, e) && (t == CloseAndMark(s, m, e) || exists status :: t == SetStatus(s, e, status)))
    ensures Paired(t)
  {
    if IsExecution(s, e) { CloseAndMarkPaired(s, m, e); }
    if t.legs == s.legs && |t.executions| == |s.executions| { ColumnsKept(s, t); }
  }

  /** In every reachable store: each leg trades the instrument of its role for the user of its execution; legs of an opening
      open, a long row on the left and a short one on the right; every leg of a close reverses the first leg of its role in
      the pair it closes, on the same account; every opened pair has both legs; every fill record names the execution, the
      row and the side of its leg; and no `net` row is ever written. */
  lemma {:induction false} LegsArePaired(steps: seq<Step>)
    ensures Paired(After(steps))
    ensures forall key: PositionKey :: key.positionSide == Net ==> key !in After(steps).positions
  {
    if steps != [] {
      LegsArePaired(steps[..|steps| - 1]);
      StepStaysPaired(After(steps[..|steps| - 1]), steps[|steps| - 1]);
    }
    RunsAreSound(steps, false);
    NoNetRows(After(steps));
  }

  lemma NoNetRows(s: Store)
    requires Paired(s) && Grounded(s)
    ensures forall key: PositionKey :: key.positionSide == Net ==> key !in s.positions
  {
    forall key: PositionKey | key.positionSide == Net ensures key !in s.positions {
      forall k | 0 <= k < |s.fills| ensures s.fills[k].key != key {
        assert RecordFits(s.legs, s.fills[k]) && LegFits(s, s.legs[s.fills[k].legId]);
      }
      NoRecordNoRow(s, key);
    }
  }

  lemma NoRecordNoRow(s: Store, key: PositionKey)
    requires RowExplained(s, key) && forall k :: 0 <= k < |s.fills| ==> s.fills[k].key != key
    ensures key !in s.positions
  {
    EmptyLedger(s.fills, key);
  }

  lemma {:induction false} EmptyLedger(fills: seq<FillRecord>, key: PositionKey)
    requires forall k :: 0 <= k < |fills| ==> fills[k].key != key
    ensures KeyLedger(fills, key) == []
  {
    if fills != [] { EmptyLedger(fills[..|fills| - 1], key); }
  }
}

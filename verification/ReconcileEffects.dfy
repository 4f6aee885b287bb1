/** What reconciling an execution comes to in the tables, read off its legs: its status, its source, the legs it gives up,
    the cooldown of its pair and the close it starts. */
module ReconcileEffects {
  import opened Prelude
  import opened Positions
  import opened Quantities
  import opened Legs
  import opened Executions
  import opened SystemRuns
  import opened LegPairing
  import opened CloseEffects
  import Text

  // ---------------------------------------------------- what the legs say

  predicate HasLeg(s: Store, e: nat) {
    exists l :: 0 <= l < |s.legs| && s.legs[l].executionId == e
  }

  predicate HasActiveLeg(s: Store, e: nat) {
    exists l :: 0 <= l < |s.legs| && s.legs[l].executionId == e && Active(s.legs[l].status)
  }

  /** Some leg has used up its ten retries. */
  predicate HasSpentLeg(s: Store, e: nat) {
    exists l :: 0 <= l < |s.legs| && s.legs[l].executionId == e && s.legs[l].retryCount >= 10
  }

  /** Some leg has filled something, or its side still has a position. */
  predicate HasExposedLeg(s: Store, e: nat) {
    exists l :: 0 <= l < |s.legs| && s.legs[l].executionId == e && (s.legs[l].filledQuantity > 0.0 || IsExposed(s, s.legs[l]))
  }

  /** What there is to be found out about an execution: whether all its legs are filled, some leg has failed, is active, has
      no retries left or left something on an exchange, and whether its pair is being closed or can be. */
  datatype Findings = Findings(filled: bool, failed: bool, active: bool, spent: bool, exposed: bool, busy: bool, closable: bool)

  ghost function Find(s: Store, m: Market, e: nat): Findings
    requires IsExecution(s, e)
  {
    Findings(AllLegsFilled(s, e), HasFailedLeg(s, e), HasActiveLeg(s, e), HasSpentLeg(s, e), HasExposedLeg(s, e),
             Busy(s, s.executions[e]), HasBothLegs(s.legs, e) && CanClose(s, m, e))
  }

  /** An opening that failed with something on an exchange, of which a close can take care. */
  predicate Rescued(x: Execution, f: Findings) {
    x.action == Open && f.failed && f.exposed && x.userId > 0 && x.ruleId > 0 && x.pairKey != "" && (f.busy || f.closable)
  }

  /** The pair is left alone for a while: its opening failed, and either nothing takes care of what is exposed or a leg had no
      retries left; or its close failed with a leg that had none. */
  predicate Cools(x: Execution, f: Findings) {
    && f.failed && x.userId > 0 && Text.Strip(x.pairKey) != ""
    && if x.action == Close then f.spent else !Rescued(x, f) && (f.spent || (f.exposed && x.ruleId > 0 && x.pairKey != ""))
  }

  // ---------------------------------------------------- the parts of the store

  predicate StatusFollows(x: Execution, f: Findings, now: ExecutionStatus) {
    var open := x.action == Open;
    && (now == Opened <==> open && f.filled)
    && (now == Closed <==> !open && f.filled)
    && (now == Opening <==> open && !f.failed && f.active)
    && (now == Broken <==> f.failed && !Rescued(x, f))
    && (now == Closing <==> if open then Rescued(x, f) else !f.failed && f.active)
  }

  /** A closed source stays closed, an unfinished close leaves its source alone, and a failed one gives it back to the monitor
      only when it has no retries left. */
  predicate SourceFollows(f: Findings, was: ExecutionStatus, now: ExecutionStatus) {
    if was == Closed || f.filled then now == Closed
    else if !f.failed then now == was
    else now == if f.spent then Opened else Closing
  }

  ghost predicate ExecutionsFollow(s: Store, t: Store, e: nat, f: Findings)
    requires IsExecution(s, e)
  {
    var x := s.executions[e];
    && |s.executions| <= |t.executions|
    && (forall i :: 0 <= i < |s.executions| ==> SameRow(s.executions[i], t.executions[i]))
    && StatusFollows(x, f, t.executions[e].status)
    && forall i :: 0 <= i < |s.executions| && i != e ==>
                     if x.action == Close && x.source == Some(i) then SourceFollows(f, s.executions[i].status, t.executions[i].status)
                     else t.executions[i].status == s.executions[i].status
  }

  /** A leg is given up when it is active without an order while a leg of its execution has failed. */
  ghost predicate LegsFollow(s: Store, t: Store, e: nat, f: Findings) {
    && |s.legs| <= |t.legs|
    && forall l :: 0 <= l < |s.legs| ==>
                     var leg := s.legs[l];
                     t.legs[l] == if leg.executionId == e && f.failed && Active(leg.status) && leg.orderId == ""
                                  then leg.(status := LegStatus.Failed) else leg
  }

  /** Beyond that there is a new close exactly when one rescues the opening and none is under way. */
  ghost predicate RescueFollows(s: Store, t: Store, m: Market, e: nat, f: Findings)
    requires IsExecution(s, e)
  {
    if Rescued(s.executions[e], f) && !f.busy then |t.executions| == |s.executions| + 1 && IsCloseOf(s, t, m, e)
    else |t.executions| == |s.executions| && |t.legs| == |s.legs|
  }

  ghost predicate IsCloseOf(s: Store, t: Store, m: Market, e: nat)
    requires IsExecution(s, e)
  {
    && HasBothLegs(s.legs, e) && |s.legs| <= |t.legs| && |s.executions| < |t.executions|
    && CloseBoth(s, m, e, t.legs[|s.legs|..])
    && var x, y := s.executions[e], t.executions[|s.executions|];
       y.action == Close && y.source == Some(e) && y.status == ToStart && y.plannedAmount == ValueOfAll(m, t.legs[|s.legs|..])
       && ClosesPairOf(y, x) && y.left == x.left && y.right == x.right
  }

  ghost predicate RestFollows(s: Store, t: Store, e: nat, f: Findings)
    requires IsExecution(s, e)
  {
    var x := s.executions[e];
    && t.cooldowns == s.cooldowns + (if Cools(x, f) then {(x.userId, Text.Strip(x.pairKey))} else {})
    && t.fills == s.fills && t.positions == s.positions
  }

  /** All that reconciling writes. */
  ghost predicate Follows(s: Store, t: Store, m: Market, e: nat, f: Findings)
    requires IsExecution(s, e)
  {
    ExecutionsFollow(s, t, e, f) && LegsFollow(s, t, e, f) && RescueFollows(s, t, m, e, f) && RestFollows(s, t, e, f)
  }

  // ---------------------------------------------------------- the findings

  lemma VerdictIs(s: Store, m: Market, e: nat)
    requires Proper(s) && IsExecution(s, e) && HasLeg(s, e)
    ensures var f := Find(s, m, e);
            && Judge(LegStatuses(s, e)) == (if f.failed then SomeLegFailed else if f.filled then AllFilled else InProgress)
            && !(f.failed && f.filled) && (!f.failed ==> f.active == !f.filled)
  {
    GroundedMeansClean(s);
    JudgeMeaning(s, e);
    UnfinishedIsActive(s, e);
  }

  lemma UnfinishedIsActive(s: Store, e: nat)
    requires CleanLegs(s)
    ensures !HasFailedLeg(s, e) ==> HasActiveLeg(s, e) == !AllLegsFilled(s, e)
    ensures !(HasFailedLeg(s, e) && AllLegsFilled(s, e))
  {
    if !HasFailedLeg(s, e) && !AllLegsFilled(s, e) {
      var l :| 0 <= l < |s.legs| && s.legs[l].executionId == e && s.legs[l].status != Filled;
      assert s.legs[l].status != LegStatus.Failed && s.legs[l].status !in {Cancelled, Created};
      assert Active(s.legs[l].status);
    }
  }

  lemma ExposedIs(s: Store, e: nat)
    requires Proper(s)
    ensures AnyLegExposed(s, e) <==> HasExposedLeg(s, e)
  {
    forall l | 0 <= l < |s.legs| ensures LegExposed(s, s.legs[l]) <==> s.legs[l].filledQuantity > 0.0 || IsExposed(s, s.legs[l]) {
      SeenQuantity(s, s.legs[l]);
    }
  }

  /** Marking an execution as failed changes none of the findings. */
  lemma MarkedFindings(s: Store, m: Market, e: nat, b: Store)
    requires Proper(s) && IsExecution(s, e) && b == SetStatus(s, e, Broken)
    ensures AnyLegSpent(b, e) == Find(s, m, e).spent && AnyLegExposed(b, e) == Find(s, m, e).exposed
  {
    ExposedIs(s, e);
    forall l | 0 <= l < |s.legs| ensures LegExposed(b, b.legs[l]) == LegExposed(s, s.legs[l]) {}
  }

  /** A store in which `e` has failed and its legs have been given up. */
  ghost predicate GivesUp(s: Store, u: Store, e: nat)
    requires IsExecution(s, e)
  {
    && u.executions == s.executions[e := s.executions[e].(status := Broken)]
    && |u.legs| == |s.legs|
    && (forall l :: 0 <= l < |s.legs| ==>
                      var leg := s.legs[l];
                      u.legs[l] == if leg.executionId == e && Active(leg.status) && leg.orderId == ""
                                   then leg.(status := LegStatus.Failed) else leg)
    && u.fills == s.fills && u.positions == s.positions && u.cooldowns == s.cooldowns
  }

  lemma AbandonGivesUp(s: Store, e: nat)
    requires IsExecution(s, e)
    ensures GivesUp(s, Abandoned(SetStatus(s, e, Broken), e), e)
  {
  }

  lemma ProperWhenGivenUp(s: Store, e: nat, u: Store)
    requires Proper(s) && IsExecution(s, e) && s.executions[e].action == Open && u == Abandoned(SetStatus(s, e, Broken), e)
    ensures Proper(u)
  {
    var b := SetStatus(s, e, Broken);
    SetOpenStatus(s, e, Broken, false);
    AbandonKeeps(b, e, false);
    GroundedWithFreshLegs(s, b);
    GroundedWhenAbandoned(b, e);
    ColumnsKept(s, b);
    ColumnsKept(b, u);
  }

  lemma SameToClose(s: Store, m: Market, e: nat, u: Store)
    requires IsExecution(s, e) && HasBothLegs(s.legs, e) && GivesUp(s, u, e)
    ensures HasBothLegs(u.legs, e)
    ensures CanClose(u, m, e) == CanClose(s, m, e)
    ensures forall added :: CloseBoth(u, m, e, added) == CloseBoth(s, m, e, added)
  {
    SameFirstLegs(s, u, e);
    SameClosable(s, u, m, LeftLeg(s, e), LeftLeg(u, e));
    SameClosable(s, u, m, RightLeg(s, e), RightLeg(u, e));
  }

  lemma SameFirstLegs(s: Store, u: Store, e: nat)
    requires HasBothLegs(s.legs, e) && e < |s.executions| && LegsGrow(s.legs, u.legs, |s.executions|)
    ensures HasBothLegs(u.legs, e)
    ensures SameColumns(LeftLeg(s, e), LeftLeg(u, e)) && SameColumns(RightLeg(s, e), RightLeg(u, e))
  {
    FirstLegStays(s.legs, u.legs, |s.executions|, e, Left);
    FirstLegStays(s.legs, u.legs, |s.executions|, e, Right);
  }

  lemma SameClosable(s: Store, u: Store, m: Market, a: Leg, b: Leg)
    requires s.positions == u.positions && SameColumns(a, b)
    ensures Closable(u, m, b) == Closable(s, m, a)
    ensures forall leg, c :: Closes(u, m, leg, b, c) == Closes(s, m, leg, a, c)
  {
    forall leg, c ensures Closes(u, m, leg, b, c) == Closes(s, m, leg, a, c) {}
  }

  lemma SameBusy(s: Store, e: nat, u: Store)
    requires IsExecution(s, e) && s.executions[e].action == Open && GivesUp(s, u, e)
    ensures IsExecution(u, e) && Busy(u, u.executions[e]) == Busy(s, s.executions[e])
  {
    var x, y := s.executions[e], u.executions[e];
    forall i | 0 <= i < |s.executions|
      ensures ClosesPairOf(u.executions[i], y) == ClosesPairOf(s.executions[i], x)
      ensures ClosesPairOf(s.executions[i], x) ==> u.executions[i].status == s.executions[i].status
    {}
  }

  // ------------------------------------------------------------- the cases

  /** Forcing a close of a failed opening whose legs have been given up. */
  lemma ForceCloseDoes(u: Store, m: Market, e: nat)
    requires Proper(u) && IsExecution(u, e) && u.executions[e].action == Open
    ensures HasBothLegs(u.legs, e)
    ensures var (t, scheduled) := ForceClose(u, m, e);
            var x := u.executions[e];
            var may := x.userId > 0 && x.ruleId > 0 && x.pairKey != "";
            && (scheduled <==> may && (Busy(u, x) || CanClose(u, m, e)))
            && (scheduled && Busy(u, x) ==> t == SetStatus(u, e, Closing))
            && (scheduled && !Busy(u, x) ==> StartsClose(u, t, m, e))
            && (!scheduled ==> t == if may then Cooldown(u, x) else u)
  {
    BusyIff(u, u.executions[e]);
    CloseReversesPair(u, m, e);
    CloseAndMarkDoes(u, m, e);
  }

  lemma FailedCloseFollows(s: Store, m: Market, e: nat, f: Findings, t: Store)
    requires IsExecution(s, e) && s.executions[e].action == Close && LinkedRow(s.executions, e) && f.failed && !f.filled
    requires f.spent == AnyLegSpent(SetStatus(s, e, Broken), e) && t == HandleFailed(SetStatus(s, e, Broken), m, e)
    ensures Follows(s, t, m, e, f)
  {
    AbandonGivesUp(s, e);
    assert t.legs == Abandoned(SetStatus(s, e, Broken), e).legs;
  }

  /** The store after a failed opening that no new close rescues. */
  lemma UnrescuedFollows(s: Store, m: Market, e: nat, f: Findings, u: Store, t: Store)
    requires IsExecution(s, e) && s.executions[e].action == Open && f.failed && !f.filled && GivesUp(s, u, e)
    requires var x := u.executions[e];
             if Rescued(x, f) then f.busy && t == SetStatus(u, e, Closing)
             else t == if f.spent || (f.exposed && CanForceClose(x)) then Cooldown(u, x) else u
    ensures Follows(s, t, m, e, f)
  {
    assert t.legs == u.legs;
  }

  lemma NewCloseFollows(s: Store, m: Market, e: nat, f: Findings, u: Store, t: Store)
    requires IsExecution(s, e) && s.executions[e].action == Open && !f.filled && GivesUp(s, u, e) && Rescued(s.executions[e], f) && !f.busy
    requires HasBothLegs(s.legs, e) && HasBothLegs(u.legs, e) && StartsClose(u, t, m, e)
    requires CloseBoth(u, m, e, t.legs[|u.legs|..]) == CloseBoth(s, m, e, t.legs[|u.legs|..])
    ensures Follows(s, t, m, e, f)
  {
    var v := SetStatus(t, e, Broken);
    assert v.executions[..|u.executions|] == u.executions;
    forall i | 0 <= i < |s.executions| ensures v.executions[i] == u.executions[i] {
      assert v.executions[..|u.executions|][i] == v.executions[i];
    }
    assert v.executions[|s.executions|] == t.executions[|s.executions|];
    NewCloseExecutions(s, e, f, u, t);
  }

  lemma NewCloseExecutions(s: Store, e: nat, f: Findings, u: Store, t: Store)
    requires IsExecution(s, e) && s.executions[e].action == Open && !f.filled && GivesUp(s, u, e) && Rescued(s.executions[e], f)
    requires |s.executions| < |t.executions| && t.executions[e].status == Closing && SameRow(u.executions[e], t.executions[e])
    requires forall i :: 0 <= i < |s.executions| && i != e ==> t.executions[i] == u.executions[i]
    ensures ExecutionsFollow(s, t, e, f)
  {
  }

  lemma FailedOpeningFollows(s: Store, m: Market, e: nat, f: Findings, t: Store)
    requires Proper(s) && IsExecution(s, e) && s.executions[e].action == Open && f == Find(s, m, e) && f.failed && !f.filled
    requires t == HandleFailed(SetStatus(s, e, Broken), m, e)
    ensures Follows(s, t, m, e, f)
  {
    var b := SetStatus(s, e, Broken);
    var u := Abandoned(b, e);
    MarkedFindings(s, m, e, b);
    AbandonGivesUp(s, e);
    ProperWhenGivenUp(s, e, u);
    assert ExecutionFits(s, e);
    SameToClose(s, m, e, u);
    SameBusy(s, e, u);
    ForceCloseDoes(u, m, e);
    var (v, scheduled) := ForceClose(u, m, e);
    OpeningCases(s, m, e, f, u, v, scheduled, t);
  }

  lemma OpeningCases(s: Store, m: Market, e: nat, f: Findings, u: Store, v: Store, scheduled: bool, t: Store)
    requires IsExecution(s, e) && s.executions[e].action == Open && f.failed && !f.filled && GivesUp(s, u, e)
    requires HasBothLegs(s.legs, e) && HasBothLegs(u.legs, e)
    requires forall added :: CloseBoth(u, m, e, added) == CloseBoth(s, m, e, added)
    requires scheduled <==> CanForceClose(u.executions[e]) && (f.busy || f.closable)
    requires if scheduled then (if f.busy then v == SetStatus(u, e, Closing) else StartsClose(u, v, m, e))
             else v == if CanForceClose(u.executions[e]) then Cooldown(u, u.executions[e]) else u
    requires t == if f.exposed && scheduled then v
                  else if f.spent then Cooldown(if f.exposed then v else u, u.executions[e]) else if f.exposed then v else u
    ensures Follows(s, t, m, e, f)
  {
    CooledTwice(u, u.executions[e]);
    if f.exposed && scheduled && !f.busy {
      NewCloseFollows(s, m, e, f, u, t);
    } else {
      UnrescuedFollows(s, m, e, f, u, t);
    }
  }

  lemma CooledTwice(u: Store, x: Execution)
    ensures Cooldown(Cooldown(u, x), x) == Cooldown(u, x)
  {
  }

  /** What reconciling an execution that has legs does, read off those legs, in every reachable store and in the middle of
      every step that processes a leg: its status, that of its source, the legs given up, the close that rescues it, the
      cooldown of its pair, and nothing else. */
  lemma ReconcileDoes(s: Store, m: Market, e: nat)
    requires Proper(s) && IsExecution(s, e)
    ensures if HasLeg(s, e) then Follows(s, Reconcile(s, m, e), m, e, Find(s, m, e)) else Reconcile(s, m, e) == s
  {
    if HasLeg(s, e) {
      var f, t := Find(s, m, e), Reconcile(s, m, e);
      VerdictIs(s, m, e);
      assert LinkedRow(s.executions, e);
      if f.failed {
        MarkedFindings(s, m, e, SetStatus(s, e, Broken));
        if s.executions[e].action == Close { FailedCloseFollows(s, m, e, f, t); } else { FailedOpeningFollows(s, m, e, f, t); }
      } else {
        UnfailedFollows(s, m, e, f, t);
      }
    } else {
      GroundedMeansClean(s);
      JudgeMeaning(s, e);
    }
  }

  lemma UnfailedFollows(s: Store, m: Market, e: nat, f: Findings, t: Store)
    requires IsExecution(s, e) && LinkedRow(s.executions, e) && !f.failed && f.active == !f.filled && t == Reconcile(s, m, e)
    requires Judge(LegStatuses(s, e)) == if f.filled then AllFilled else InProgress
    ensures Follows(s, t, m, e, f)
  {
  }
}

/** Every run of the execution engine: workers, web requests and the exchange interleaved as atomic steps on one store. */
module SystemRuns {
  import opened Prelude
  import opened Positions
  import opened Quantities
  import opened Legs
  import opened Executions

  /** The atomic steps, each with what it is told by the outside world. */
  datatype Step =
    | StartPair(market: Market, plan: PairPlan)
    | RunLeg(env: Env, leg: nat, exchange: Exchange)
    | Inspect(market: Market, execution: nat, wantsClose: bool)
    | RuleOff(market: Market, userId: int, ruleId: int, execution: nat)
    | Manual(market: Market, userId: int, execution: nat)

  function Take(s: Store, step: Step): Store {
    match step
    case StartPair(m, plan) => OpenPair(s, m, plan).GetOr(s)
    case RunLeg(env, l, ex) => if Listed(s, l) then ProcessLeg(s, env, l, ex) else s
    case Inspect(m, e, wants) => InspectOpen(s, m, e, wants)
    case RuleOff(m, user, rule, e) => CloseForRule(s, m, user, rule, e)
    case Manual(m, user, e) => RequestClose(s, m, user, e).0
  }

  const EMPTY := Store([], [], [], map[], {})

  /** The store after a run of the whole system. */
  function After(steps: seq<Step>): Store {
    if steps == [] then EMPTY else Take(After(steps[..|steps| - 1]), steps[|steps| - 1])
  }

  // ------------------------------------------------------ the execution graph

  /** Legs belong to executions; a close belongs to an earlier opened pair of the same user, rule and pair key. */
  ghost predicate Linked(s: Store) {
    && (forall l :: 0 <= l < |s.legs| ==> s.legs[l].executionId < |s.executions|)
    && (forall i :: 0 <= i < |s.executions| ==> LinkedRow(s.executions, i))
  }

  predicate LinkedRow(executions: seq<Execution>, i: nat)
    requires i < |executions|
  {
    var x := executions[i];
    if x.action == Open then x.source == None
    else
      && x.source.Some? && x.source.value < i
      && var source := executions[x.source.value];
         source.action == Open && source.userId == x.userId && source.ruleId == x.ruleId && source.pairKey == x.pairKey
  }

  predicate HasFailedLeg(s: Store, e: nat) {
    exists l :: 0 <= l < |s.legs| && s.legs[l].executionId == e && s.legs[l].status == LegStatus.Failed
  }

  predicate AllLegsFilled(s: Store, e: nat) {
    forall l :: 0 <= l < |s.legs| && s.legs[l].executionId == e ==> s.legs[l].status == Filled
  }

  /** A dead close says why it is dead. */
  predicate SettledRow(s: Store, i: nat)
    requires IsExecution(s, i)
  {
    var x := s.executions[i];
    x.action == Close ==>
      && x.status in {ToStart, Closing, Broken, Closed}
      && (x.status == Broken ==> HasFailedLeg(s, i))
      && (x.status == Closed ==> AllLegsFilled(s, i))
  }

  ghost predicate Settled(s: Store) {
    forall i :: 0 <= i < |s.executions| ==> SettledRow(s, i)
  }

  /** Two closes compete when they close the same source, or, `byPair`, the same pair of the same rule and user. */
  predicate Rivals(x: Execution, y: Execution, byPair: bool) {
    x.action == Close && y.action == Close
    && if byPair then x.userId == y.userId && x.ruleId == y.ruleId && x.pairKey == y.pairKey else x.source == y.source
  }

  /** Of competing closes only the newest may be live. */
  ghost predicate OneLive(s: Store, byPair: bool) {
    forall i, j :: 0 <= i < j < |s.executions| && Rivals(s.executions[i], s.executions[j], byPair) ==> !Live(s.executions[i].status)
  }

  ghost predicate Sound(s: Store, byPair: bool) {
    Linked(s) && Settled(s) && OneLive(s, byPair)
  }

  /** All legs of the execution are at rest. */
  predicate Resting(s: Store, e: nat) {
    forall l :: 0 <= l < |s.legs| && s.legs[l].executionId == e ==> !Active(s.legs[l].status)
  }

  /** An opened pair that is closed and has nothing left on any exchange. */
  predicate ClosedAtRest(s: Store, e: nat)
    requires IsExecution(s, e)
  {
    s.executions[e].action == Open && s.executions[e].status == Closed && Resting(s, e)
  }

  predicate SameRow(x: Execution, y: Execution) { x.(status := y.status) == y }

  /** What every step keeps: rows are never lost or rewritten apart from their status, legs at rest stay as they are,
      new legs belong to new executions, dead closes keep their status, and a closed pair at rest (other than `but`)
      stays closed. */
  ghost predicate Keeps(s: Store, t: Store, but: nat) {
    && |s.executions| <= |t.executions| && |s.legs| <= |t.legs|
    && (forall i :: 0 <= i < |s.executions| ==> SameRow(s.executions[i], t.executions[i]))
    && (forall l :: 0 <= l < |s.legs| ==> s.legs[l].executionId == t.legs[l].executionId)
    && (forall l :: 0 <= l < |s.legs| && !Active(s.legs[l].status) ==> t.legs[l] == s.legs[l])
    && (forall l :: |s.legs| <= l < |t.legs| ==> t.legs[l].executionId >= |s.executions|)
    && (forall i :: 0 <= i < |s.executions| && s.executions[i].action == Close && !Live(s.executions[i].status) ==>
          t.executions[i].status == s.executions[i].status)
    && (forall i :: 0 <= i < |s.executions| && i != but && ClosedAtRest(s, i) ==> t.executions[i].status == Closed)
  }

  lemma KeepsTransitive(s: Store, t: Store, u: Store, but: nat)
    requires Keeps(s, t, but) && Keeps(t, u, but)
    ensures Keeps(s, u, but)
  {
    forall i | 0 <= i < |s.executions| && Resting(s, i) ensures Resting(t, i) {}
  }

  // -------------------------------------------------------------- primitives

  lemma SetOpenStatus(s: Store, e: nat, status: ExecutionStatus, byPair: bool)
    requires Sound(s, byPair) && IsExecution(s, e) && s.executions[e].action == Open
    ensures Sound(SetStatus(s, e, status), byPair)
    ensures Keeps(s, SetStatus(s, e, status), e)
    ensures status == Closed || s.executions[e].status != Closed ==> forall but :: Keeps(s, SetStatus(s, e, status), but)
  {
    var t := SetStatus(s, e, status);
    forall i | 0 <= i < |t.executions| ensures LinkedRow(t.executions, i) && SettledRow(t, i) {
      assert LinkedRow(s.executions, i) && SettledRow(s, i);
      if HasFailedLeg(s, i) { assert HasFailedLeg(t, i); }
      if AllLegsFilled(s, i) { assert AllLegsFilled(t, i); }
    }
  }

  /** The status that reconciling gives a close whose legs have been judged. */
  function CloseStatus(v: Verdict): ExecutionStatus {
    match v
    case AllFilled => Closed
    case SomeLegFailed => Broken
    case _ => Closing
  }

  /** No leg is ever `cancelled` or `created`. */
  ghost predicate CleanLegs(s: Store) {
    forall l :: 0 <= l < |s.legs| ==> s.legs[l].status !in {Cancelled, Created}
  }

  lemma JudgeMeaning(s: Store, e: nat)
    requires CleanLegs(s)
    ensures Judge(LegStatuses(s, e)) == SomeLegFailed <==> HasFailedLeg(s, e)
    ensures Judge(LegStatuses(s, e)) == NoLegs <==> forall l :: 0 <= l < |s.legs| ==> s.legs[l].executionId != e
    ensures Judge(LegStatuses(s, e)) == AllFilled
            <==> AllLegsFilled(s, e) && exists l :: 0 <= l < |s.legs| && s.legs[l].executionId == e
  {
    var statuses := LegStatuses(s, e);
    forall l | 0 <= l < |s.legs| && s.legs[l].executionId == e ensures s.legs[l].status in statuses {}
    if LegStatus.Failed in statuses { assert HasFailedLeg(s, e); }
    assert Cancelled !in statuses;
    if AllLegsFilled(s, e) {
      forall st | st in statuses ensures st == Filled {}
      if exists l :: 0 <= l < |s.legs| && s.legs[l].executionId == e {
        var l :| 0 <= l < |s.legs| && s.legs[l].executionId == e;
        assert s.legs[l].status in statuses;
        assert statuses == {Filled};
      }
    }
    if statuses == {Filled} {
      forall l | 0 <= l < |s.legs| && s.legs[l].executionId == e ensures s.legs[l].status == Filled {
        assert s.legs[l].status in statuses;
      }
      assert Filled in statuses;
    }
  }

  lemma SetCloseStatus(s: Store, c: nat, byPair: bool)
    requires Sound(s, byPair) && CleanLegs(s) && IsExecution(s, c) && s.executions[c].action == Close
    requires Judge(LegStatuses(s, c)) != NoLegs
    ensures var t := SetStatus(s, c, CloseStatus(Judge(LegStatuses(s, c))));
            Sound(t, byPair) && forall but :: Keeps(s, t, but)
  {
    var t := SetStatus(s, c, CloseStatus(Judge(LegStatuses(s, c))));
    JudgeMeaning(s, c);
    assert SettledRow(s, c);
    assert HasFailedLeg(t, c) == HasFailedLeg(s, c) && AllLegsFilled(t, c) == AllLegsFilled(s, c);
    forall i | 0 <= i < |t.executions| ensures LinkedRow(t.executions, i) && SettledRow(t, i) {
      assert LinkedRow(s.executions, i) && SettledRow(s, i);
      if HasFailedLeg(s, i) { assert HasFailedLeg(t, i); }
      if AllLegsFilled(s, i) { assert AllLegsFilled(t, i); }
    }
    assert Live(t.executions[c].status) ==> Live(s.executions[c].status);
  }

  /** Legs may move on, but a leg at rest does not, and no leg changes its execution. */
  ghost predicate LegsMoveOn(legs: seq<Leg>, next: seq<Leg>) {
    && |legs| == |next|
    && (forall l :: 0 <= l < |legs| ==> legs[l].executionId == next[l].executionId)
    && (forall l :: 0 <= l < |legs| && !Active(legs[l].status) ==> next[l] == legs[l])
  }

  lemma MoveLegs(s: Store, t: Store, byPair: bool)
    requires Sound(s, byPair) && s.executions == t.executions && LegsMoveOn(s.legs, t.legs)
    ensures Sound(t, byPair) && forall but :: Keeps(s, t, but)
  {
    forall i | 0 <= i < |t.executions| ensures LinkedRow(t.executions, i) && SettledRow(t, i) {
      assert LinkedRow(s.executions, i) && SettledRow(s, i);
      if HasFailedLeg(s, i) {
        var l :| 0 <= l < |s.legs| && s.legs[l].executionId == i && s.legs[l].status == LegStatus.Failed;
        assert t.legs[l] == s.legs[l];
        assert HasFailedLeg(t, i);
      }
      if AllLegsFilled(s, i) { assert AllLegsFilled(t, i); }
    }
  }

  /** A close was added for `e`: the tables grew by it and its legs only. */
  ghost predicate Adds(s: Store, t: Store, x: Execution) {
    && t.executions == s.executions + [x]
    && s.legs <= t.legs
    && (forall l :: |s.legs| <= l < |t.legs| ==> t.legs[l].executionId == |s.executions|)
  }

  lemma AddExecution(s: Store, t: Store, x: Execution, byPair: bool)
    requires Sound(s, byPair) && Adds(s, t, x) && x.status == ToStart
    requires LinkedRow(s.executions + [x], |s.executions|)
    requires forall i :: 0 <= i < |s.executions| && Rivals(s.executions[i], x, byPair) ==> !Live(s.executions[i].status)
    ensures Sound(t, byPair) && forall but :: Keeps(s, t, but)
  {
    forall i | 0 <= i < |t.executions| ensures LinkedRow(t.executions, i) && SettledRow(t, i) {
      if i < |s.executions| {
        assert LinkedRow(s.executions, i) && SettledRow(s, i);
        if HasFailedLeg(s, i) {
          var l :| 0 <= l < |s.legs| && s.legs[l].executionId == i && s.legs[l].status == LegStatus.Failed;
          assert t.legs[l] == s.legs[l];
          assert HasFailedLeg(t, i);
        }
        if AllLegsFilled(s, i) { assert AllLegsFilled(t, i); }
      }
    }
  }

  // --------------------------------------------------------- composite steps

  lemma CreateCloseAdds(s: Store, m: Market, e: nat)
    requires IsExecution(s, e) && CreateClose(s, m, e).Some?
    ensures var t := CreateClose(s, m, e).value;
            && s.executions[e].action == Open && t.fills == s.fills && t.positions == s.positions
            && t.executions != [] && Adds(s, t, t.executions[|s.executions|])
            && var x := t.executions[|s.executions|];
               x.action == Close && x.source == Some(e) && x.status == ToStart
               && x.userId == s.executions[e].userId && x.ruleId == s.executions[e].ruleId && x.pairKey == s.executions[e].pairKey
    ensures forall l :: |s.legs| <= l < |CreateClose(s, m, e).value.legs| ==> Fresh(CreateClose(s, m, e).value.legs[l])
  {
  }

  /** No close of `e` (or of its pair) is live. */
  ghost predicate NoRival(s: Store, e: nat, byPair: bool)
    requires IsExecution(s, e)
  {
    forall i :: 0 <= i < |s.executions| && Rivals(s.executions[i], s.executions[e].(action := Close, source := Some(e)), byPair)
                ==> !Live(s.executions[i].status)
  }

  lemma IdlePairHasNoRival(s: Store, e: nat, byPair: bool)
    requires Linked(s) && IsExecution(s, e) && !PairBusy(s, s.executions[e])
    ensures NoRival(s, e, byPair)
  {
    var x := s.executions[e];
    forall i | 0 <= i < |s.executions| && Rivals(s.executions[i], x.(action := Close, source := Some(e)), byPair)
      ensures !Live(s.executions[i].status)
    {
      assert LinkedRow(s.executions, i);
      assert !IsLiveCloseOf(s.executions[i], x.userId, x.ruleId, x.pairKey);
    }
  }

  lemma CloseThenMark(s: Store, m: Market, e: nat, byPair: bool)
    requires Sound(s, byPair) && IsExecution(s, e) && NoRival(s, e, byPair) && CreateClose(s, m, e).Some?
    ensures var t := SetStatus(CreateClose(s, m, e).value, e, Closing);
            && Sound(t, byPair) && Keeps(s, t, e)
            && (s.executions[e].status != Closed ==> forall but :: Keeps(s, t, but))
  {
    CreateCloseAdds(s, m, e);
    var t := CreateClose(s, m, e).value;
    AddExecution(s, t, t.executions[|s.executions|], byPair);
    SetOpenStatus(t, e, Closing, byPair);
    KeepsTransitive(s, t, SetStatus(t, e, Closing), e);
    if s.executions[e].status != Closed {
      forall but ensures Keeps(s, SetStatus(t, e, Closing), but) {
        assert Keeps(t, SetStatus(t, e, Closing), but);
        KeepsTransitive(s, t, SetStatus(t, e, Closing), but);
      }
    }
  }

  lemma SameTables(s: Store, t: Store, u: Store, but: nat, byPair: bool)
    requires t.executions == u.executions && t.legs == u.legs && Sound(t, byPair) && Keeps(s, t, but)
    ensures Sound(u, byPair) && Keeps(s, u, but)
  {
    forall i | 0 <= i < |u.executions| ensures SettledRow(u, i) {
      assert SettledRow(t, i);
      if HasFailedLeg(t, i) { assert HasFailedLeg(u, i); }
      if AllLegsFilled(t, i) { assert AllLegsFilled(u, i); }
    }
  }

  lemma AbandonKeeps(s: Store, e: nat, byPair: bool)
    requires Sound(s, byPair)
    ensures Sound(Abandoned(s, e), byPair) && forall but :: Keeps(s, Abandoned(s, e), but)
  {
    MoveLegs(s, Abandoned(s, e), byPair);
  }

  lemma RestoreKeeps(s: Store, e: nat, status: ExecutionStatus, byPair: bool, but: nat)
    requires Sound(s, byPair) && IsExecution(s, e) && s.executions[e].action == Close
    ensures Sound(RestoreSource(s, e, status), byPair) && Keeps(s, RestoreSource(s, e, status), but)
  {
    assert LinkedRow(s.executions, e);
    var source := s.executions[e].source.value;
    if s.executions[source].status != Closed {
      SetOpenStatus(s, source, status, byPair);
    }
  }

  lemma ForceCloseKeeps(s: Store, m: Market, e: nat, byPair: bool)
    requires Sound(s, byPair) && IsExecution(s, e) && s.executions[e].action == Open
    ensures Sound(ForceClose(s, m, e).0, byPair) && Keeps(s, ForceClose(s, m, e).0, e)
  {
    var x := s.executions[e];
    if CanForceClose(x) {
      if PairBusy(s, x) {
        SetOpenStatus(s, e, Closing, byPair);
      } else if CreateClose(s, m, e).Some? {
        IdlePairHasNoRival(s, e, byPair);
        CloseThenMark(s, m, e, byPair);
      } else {
        SameTables(s, s, Cooldown(s, x), e, byPair);
      }
    }
  }

  lemma HandleFailedKeeps(s: Store, m: Market, e: nat, byPair: bool)
    requires Sound(s, byPair) && IsExecution(s, e)
    ensures Sound(HandleFailed(s, m, e), byPair) && Keeps(s, HandleFailed(s, m, e), e)
  {
    var x, s1 := s.executions[e], Abandoned(s, e);
    AbandonKeeps(s, e, byPair);
    if x.action == Close {
      var s2 := if AnyLegSpent(s, e) then Cooldown(s1, x) else s1;
      SameTables(s, s1, s2, e, byPair);
      RestoreKeeps(s2, e, if AnyLegSpent(s, e) then Opened else Closing, byPair, e);
      KeepsTransitive(s, s2, HandleFailed(s, m, e), e);
    } else {
      ForceCloseKeeps(s1, m, e, byPair);
      var s2 := if AnyLegExposed(s, e) then ForceClose(s1, m, e).0 else s1;
      KeepsTransitive(s, s1, s2, e);
      SameTables(s, s2, HandleFailed(s, m, e), e, byPair);
    }
  }

  lemma ReconcileKeeps(s: Store, m: Market, e: nat, byPair: bool)
    requires Sound(s, byPair) && CleanLegs(s)
    ensures Sound(Reconcile(s, m, e), byPair) && Keeps(s, Reconcile(s, m, e), e)
  {
    if IsExecution(s, e) && Judge(LegStatuses(s, e)) != NoLegs {
      var v := Judge(LegStatuses(s, e));
      var t := if s.executions[e].action == Close then SetStatus(s, e, CloseStatus(v))
               else SetStatus(s, e, match v case AllFilled => Opened case SomeLegFailed => Broken case _ => Opening);
      if s.executions[e].action == Close { SetCloseStatus(s, e, byPair); } else { SetOpenStatus(s, e, t.executions[e].status, byPair); }
      if v == SomeLegFailed {
        HandleFailedKeeps(t, m, e, byPair);
        KeepsTransitive(s, t, HandleFailed(t, m, e), e);
      } else if v == AllFilled && s.executions[e].action == Close {
        RestoreKeeps(t, e, Closed, byPair, e);
        KeepsTransitive(s, t, RestoreSource(t, e, Closed), e);
      }
    }
  }

  // ------------------------------------------------------------- whole steps

  /** Nothing is exempt: no execution has this id. */
  ghost predicate KeepsAll(s: Store, t: Store) { Keeps(s, t, |t.executions|) }

  lemma EventMovesLegs(s: Store, l: nat, ev: LegEvent)
    requires l < |s.legs| && CleanLegs(s)
    ensures var t := ApplyEvent(s, l, ev); t.executions == s.executions && LegsMoveOn(s.legs, t.legs) && CleanLegs(t)
  {
  }

  lemma ProcessLegKeeps(s: Store, env: Env, l: nat, ex: Exchange, byPair: bool)
    requires Sound(s, byPair) && CleanLegs(s) && Listed(s, l)
    ensures Sound(ProcessLeg(s, env, l, ex), byPair) && KeepsAll(s, ProcessLeg(s, env, l, ex))
  {
    var ev, e, t := EventOf(s, env, l, ex), s.legs[l].executionId, ProcessLeg(s, env, l, ex);
    var s1 := ApplyEvent(s, l, ev);
    EventMovesLegs(s, l, ev);
    MoveLegs(s, s1, byPair);
    if !Escapes(s.legs[l], ev) {
      ReconcileKeeps(s1, env.market, e, byPair);
      KeepsTransitive(s, s1, t, e);
      ExemptionNotNeeded(s, t, e, l);
    }
  }

  /** An execution with a leg still active is not at rest, so exempting it changes nothing. */
  lemma ExemptionNotNeeded(s: Store, t: Store, e: nat, l: nat)
    requires Keeps(s, t, e) && l < |s.legs| && s.legs[l].executionId == e && Active(s.legs[l].status)
    ensures KeepsAll(s, t)
  {
    forall i | 0 <= i < |s.executions| && ClosedAtRest(s, i) ensures t.executions[i].status == Closed {
      assert i != e;
    }
  }

  lemma CloseAndMarkKeeps(s: Store, m: Market, e: nat, byPair: bool)
    requires Sound(s, byPair) && IsExecution(s, e) && NoRival(s, e, byPair) && s.executions[e].status != Closed
    ensures Sound(CloseAndMark(s, m, e), byPair) && KeepsAll(s, CloseAndMark(s, m, e))
  {
    if CreateClose(s, m, e).Some? { CloseThenMark(s, m, e, byPair); }
  }

  lemma InspectKeeps(s: Store, m: Market, e: nat, wants: bool, byPair: bool)
    requires Sound(s, byPair)
    ensures Sound(InspectOpen(s, m, e, wants), byPair) && KeepsAll(s, InspectOpen(s, m, e, wants))
  {
    if IsExecution(s, e) && s.executions[e].action == Open && s.executions[e].status == Opened && !PairBusy(s, s.executions[e]) {
      IdlePairHasNoRival(s, e, byPair);
      CloseAndMarkKeeps(s, m, e, byPair);
      SetOpenStatus(s, e, Closed, byPair);
    }
  }

  lemma RuleOffKeeps(s: Store, m: Market, user: int, rule: int, e: nat, byPair: bool)
    requires Sound(s, byPair)
    ensures Sound(CloseForRule(s, m, user, rule, e), byPair) && KeepsAll(s, CloseForRule(s, m, user, rule, e))
  {
    if IsExecution(s, e) && s.executions[e].action == Open && s.executions[e].status == Opened && !PairBusy(s, s.executions[e]) {
      IdlePairHasNoRival(s, e, byPair);
      CloseAndMarkKeeps(s, m, e, byPair);
    }
  }

  /** The manual close looks at the newest close of its source only, and that is enough. */
  lemma ManualKeeps(s: Store, m: Market, user: int, e: nat)
    requires Sound(s, false)
    ensures Sound(RequestClose(s, m, user, e).0, false) && KeepsAll(s, RequestClose(s, m, user, e).0)
  {
    if IsExecution(s, e) && s.executions[e].userId == user && s.executions[e].action == Open && s.executions[e].status != Closed {
      var latest := LatestClose(s.executions, e);
      if latest.Some? && Live(s.executions[latest.value].status) {
        SetOpenStatus(s, e, Closing, false);
      } else {
        forall i | 0 <= i < |s.executions| && Rivals(s.executions[i], s.executions[e].(action := Close, source := Some(e)), false)
          ensures !Live(s.executions[i].status)
        {
          assert i <= latest.value;
          if i < latest.value { assert Rivals(s.executions[i], s.executions[latest.value], false); }
        }
        if CreateClose(s, m, e).Some? { CloseThenMark(s, m, e, false); }
      }
    }
  }

  lemma StartPairKeeps(s: Store, m: Market, p: PairPlan, byPair: bool)
    requires Sound(s, byPair)
    ensures Sound(OpenPair(s, m, p).GetOr(s), byPair) && KeepsAll(s, OpenPair(s, m, p).GetOr(s))
  {
    if OpenPair(s, m, p).Some? {
      var t := OpenPair(s, m, p).value;
      AddExecution(s, t, t.executions[|s.executions|], byPair);
    }
  }

  /** Every step keeps the graph sound and keeps what is settled; only a manual close can break the rule per pair. */
  lemma StepKeeps(s: Store, step: Step, byPair: bool)
    requires Sound(s, byPair) && CleanLegs(s) && (byPair ==> !step.Manual?)
    ensures Sound(Take(s, step), byPair) && KeepsAll(s, Take(s, step))
  {
    match step
    case StartPair(m, plan) => StartPairKeeps(s, m, plan, byPair);
    case RunLeg(env, l, ex) => if Listed(s, l) { ProcessLegKeeps(s, env, l, ex, byPair); }
    case Inspect(m, e, wants) => InspectKeeps(s, m, e, wants, byPair);
    case RuleOff(m, user, rule, e) => RuleOffKeeps(s, m, user, rule, e, byPair);
    case Manual(m, user, e) => ManualKeeps(s, m, user, e);
  }

  // ------------------------------------------------- ledgers behind the rows

  /** The sum of a leg's fill records. */
  function LegLedger(fills: seq<FillRecord>, l: nat): real {
    if fills == [] then 0.0
    else LegLedger(fills[..|fills| - 1], l) + if fills[|fills| - 1].legId == l then fills[|fills| - 1].quantity else 0.0
  }

  /** The fill records behind one position row, oldest first. */
  function KeyLedger(fills: seq<FillRecord>, key: PositionKey): seq<Trade> {
    if fills == [] then []
    else
      var n := |fills| - 1;
      KeyLedger(fills[..n], key)
      + if fills[n].key != key then []
        else [Trade(fills[n].side, fills[n].quantity, fills[n].price, fills[n].executionId, fills[n].legId, n)]
  }

  /** The leg row and its fill records are the outcome of some run of a fresh leg. */
  ghost predicate Explained(leg: Leg, ledger: real) {
    exists born, events :: Fresh(born) && Play(born, events).leg == leg && Play(born, events).ledger == ledger
  }

  lemma ExplainFresh(leg: Leg)
    requires Fresh(leg)
    ensures Explained(leg, 0.0)
  {
    assert Play(leg, []).leg == leg && Play(leg, []).ledger == 0.0;
  }

  lemma ExplainNext(leg: Leg, ledger: real, ev: LegEvent)
    requires Explained(leg, ledger)
    ensures Explained(Next(leg, ev), ledger + BookedBy(leg, ev))
  {
    var born, events :| Fresh(born) && Play(born, events).leg == leg && Play(born, events).ledger == ledger;
    assert (events + [ev])[..|events|] == events;
    assert Play(born, events + [ev]) == Advance(Play(born, events), ev);
  }

  /** Fill records name existing legs; every leg is explained by its fill records, every position row by the records of
      its key. */
  ghost predicate Grounded(s: Store) {
    && (forall k :: 0 <= k < |s.fills| ==> s.fills[k].legId < |s.legs|)
    && (forall l :: 0 <= l < |s.legs| ==> Explained(s.legs[l], LegLedger(s.fills, l)))
    && (forall key: PositionKey :: RowExplained(s, key))
  }

  ghost predicate RowExplained(s: Store, key: PositionKey) {
    ExplainsRow(KeyLedger(s.fills, key), key.positionSide, Lookup(s.positions, key))
  }

  ghost predicate ExplainsRow(ledger: seq<Trade>, ps: PositionSide, row: Option<Position>) {
    ValidLedger(ledger) && row == Row(ps, ledger)
  }

  lemma {:induction false} NoRecordsNoLedger(fills: seq<FillRecord>, l: nat)
    requires forall k :: 0 <= k < |fills| ==> fills[k].legId < l
    ensures LegLedger(fills, l) == 0.0
  {
    if fills != [] { NoRecordsNoLedger(fills[..|fills| - 1], l); }
  }

  lemma GroundedMeansClean(s: Store)
    requires Grounded(s)
    ensures CleanLegs(s)
  {
    forall l | 0 <= l < |s.legs| ensures s.legs[l].status !in {Cancelled, Created} { LegFacts(s, l); }
  }

  /** What every run of a leg keeps holds of every stored leg. */
  lemma LegFacts(s: Store, l: nat)
    requires Grounded(s) && l < |s.legs|
    ensures var leg := s.legs[l];
            && 0 <= leg.retryCount <= MAX_RETRIES && (leg.retryCount == MAX_RETRIES ==> leg.status == LegStatus.Failed)
            && leg.status !in {Cancelled, Created}
            && LegLedger(s.fills, l) >= leg.filledQuantity && (leg.filledQuantity >= 0.0 || leg.status == Filled)
  {
    var ledger := LegLedger(s.fills, l);
    assert Explained(s.legs[l], ledger);
    var born, events :| Fresh(born) && Play(born, events).leg == s.legs[l] && Play(born, events).ledger == ledger;
    RunIsBounded(born, events);
  }

  lemma GroundedAfterEvent(s: Store, l: nat, ev: LegEvent)
    requires Grounded(s) && l < |s.legs|
    ensures Grounded(ApplyEvent(s, l, ev))
  {
    var t := ApplyEvent(s, l, ev);
    forall key: PositionKey ensures RowExplained(t, key) {
      assert RowExplained(s, key);
      if BookedBy(s.legs[l], ev) > 0.0 { BookedRowExplained(s, l, BookedBy(s.legs[l], ev), ev.pollReply.average, key); }
    }
    forall i | 0 <= i < |t.legs| ensures Explained(t.legs[i], LegLedger(t.fills, i)) {
      assert Explained(s.legs[i], LegLedger(s.fills, i));
      if i == l { ExplainNext(s.legs[l], LegLedger(s.fills, l), ev); }
      EventLedger(s, l, ev, i);
    }
  }

  lemma EventLedger(s: Store, l: nat, ev: LegEvent, i: nat)
    requires l < |s.legs|
    ensures LegLedger(ApplyEvent(s, l, ev).fills, i) == LegLedger(s.fills, i) + if i == l then BookedBy(s.legs[l], ev) else 0.0
  {
    var t := ApplyEvent(s, l, ev);
    if BookedBy(s.legs[l], ev) > 0.0 { assert t.fills[..|s.fills|] == s.fills; }
    else { assert BookedBy(s.legs[l], ev) == 0.0; }
  }

  lemma BookedRowExplained(s: Store, l: nat, quantity: real, price: real, key: PositionKey)
    requires l < |s.legs| && quantity > 0.0 && RowExplained(s, key)
    ensures RowExplained(BookFill(s, l, quantity, price), key)
  {
    var leg, ledger, t := s.legs[l], KeyLedger(s.fills, key), BookFill(s, l, quantity, price);
    LedgerGrows(s.fills, t.fills[|s.fills|], key);
    if key == LegKey(leg) {
      RowGrows(ledger, key.positionSide, Lookup(s.positions, key),
               Trade(leg.side, quantity, price, leg.executionId, l, |s.fills|));
    } else {
      assert KeyLedger(t.fills, key) == ledger;
    }
  }

  lemma LedgerGrows(fills: seq<FillRecord>, record: FillRecord, key: PositionKey)
    ensures KeyLedger(fills + [record], key)
            == KeyLedger(fills, key) + if record.key != key then []
               else [Trade(record.side, record.quantity, record.price, record.executionId, record.legId, |fills|)]
  {
    assert (fills + [record])[..|fills|] == fills;
  }

  lemma RowGrows(ledger: seq<Trade>, ps: PositionSide, row: Option<Position>, t: Trade)
    requires ExplainsRow(ledger, ps, row) && t.quantity > 0.0
    ensures ExplainsRow(ledger + [t], ps, Some(Book(row, ps, t)))
  {
    assert Before(ledger + [t]) == ledger;
  }

  lemma GroundedWithFreshLegs(s: Store, t: Store)
    requires Grounded(s) && t.fills == s.fills && t.positions == s.positions && s.legs <= t.legs
    requires forall l :: |s.legs| <= l < |t.legs| ==> Fresh(t.legs[l])
    ensures Grounded(t)
  {
    forall l | 0 <= l < |t.legs| ensures Explained(t.legs[l], LegLedger(t.fills, l)) {
      if l < |s.legs| {
        assert Explained(s.legs[l], LegLedger(s.fills, l));
      } else {
        NoRecordsNoLedger(s.fills, l);
        ExplainFresh(t.legs[l]);
      }
    }
    forall key: PositionKey ensures RowExplained(t, key) { assert RowExplained(s, key); }
  }

  lemma GroundedWhenAbandoned(s: Store, e: nat)
    requires Grounded(s)
    ensures Grounded(Abandoned(s, e))
  {
    var t := Abandoned(s, e);
    forall l | 0 <= l < |t.legs| ensures Explained(t.legs[l], LegLedger(t.fills, l)) {
      assert Explained(s.legs[l], LegLedger(s.fills, l));
      if s.legs[l].executionId == e { ExplainNext(s.legs[l], LegLedger(s.fills, l), Abandon); }
    }
    forall key: PositionKey ensures RowExplained(t, key) { assert RowExplained(s, key); }
  }

  lemma GroundedForceClose(s: Store, m: Market, e: nat)
    requires Grounded(s) && IsExecution(s, e)
    ensures Grounded(ForceClose(s, m, e).0)
  {
    GroundedCreateClose(s, m, e);
    GroundedWithFreshLegs(s, ForceClose(s, m, e).0);
  }

  lemma GroundedCreateClose(s: Store, m: Market, e: nat)
    requires IsExecution(s, e)
    ensures CreateClose(s, m, e).Some? ==>
              var t := CreateClose(s, m, e).value;
              && t.fills == s.fills && t.positions == s.positions && s.legs <= t.legs && |s.executions| < |t.executions|
              && forall l :: |s.legs| <= l < |t.legs| ==> Fresh(t.legs[l])
  {
    if CreateClose(s, m, e).Some? { CreateCloseAdds(s, m, e); }
  }

  lemma GroundedHandleFailed(s: Store, m: Market, e: nat)
    requires Grounded(s) && IsExecution(s, e)
    ensures Grounded(HandleFailed(s, m, e))
  {
    var s1 := Abandoned(s, e);
    GroundedWhenAbandoned(s, e);
    GroundedForceClose(s1, m, e);
    if s.executions[e].action == Close {
      GroundedWithFreshLegs(s1, HandleFailed(s, m, e));
    } else {
      var s2 := if AnyLegExposed(s, e) then ForceClose(s1, m, e).0 else s1;
      GroundedWithFreshLegs(s2, HandleFailed(s, m, e));
    }
  }

  lemma GroundedReconcile(s: Store, m: Market, e: nat)
    requires Grounded(s)
    ensures Grounded(Reconcile(s, m, e))
  {
    if IsExecution(s, e) && Judge(LegStatuses(s, e)) == SomeLegFailed {
      GroundedWithFreshLegs(s, SetStatus(s, e, Broken));
      GroundedHandleFailed(SetStatus(s, e, Broken), m, e);
    } else {
      GroundedWithFreshLegs(s, Reconcile(s, m, e));
    }
  }

  lemma StepStaysGrounded(s: Store, step: Step)
    requires Grounded(s)
    ensures Grounded(Take(s, step))
  {
    match step
    case StartPair(m, plan) => GroundedWithFreshLegs(s, Take(s, step));
    case RunLeg(env, l, ex) =>
      if Listed(s, l) {
        GroundedAfterEvent(s, l, EventOf(s, env, l, ex));
        GroundedReconcile(ApplyEvent(s, l, EventOf(s, env, l, ex)), env.market, s.legs[l].executionId);
      }
    case Inspect(m, e, _) => GroundedCloseStep(s, m, e, Take(s, step));
    case RuleOff(m, _, _, e) => GroundedCloseStep(s, m, e, Take(s, step));
    case Manual(m, _, e) => GroundedCloseStep(s, m, e, Take(s, step));
  }

  lemma GroundedCloseStep(s: Store, m: Market, e: nat, t: Store)
    requires Grounded(s)
    requires t.fills == s.fills && t.positions == s.positions
    requires t.legs == s.legs || (IsExecution(s, e) && CreateClose(s, m, e).Some? && t.legs == CreateClose(s, m, e).value.legs)
    ensures Grounded(t)
  {
    if IsExecution(s, e) { GroundedCreateClose(s, m, e); }
    GroundedWithFreshLegs(s, t);
  }

  // ------------------------------------------------------------ every run

  ghost predicate NoManual(steps: seq<Step>) {
    forall i :: 0 <= i < |steps| ==> !steps[i].Manual?
  }

  lemma {:induction false} RunsAreSound(steps: seq<Step>, byPair: bool)
    requires byPair ==> NoManual(steps)
    ensures Sound(After(steps), byPair) && Grounded(After(steps))
  {
    if steps != [] {
      RunsAreSound(steps[..|steps| - 1], byPair);
      GroundedMeansClean(After(steps[..|steps| - 1]));
      StepKeeps(After(steps[..|steps| - 1]), steps[|steps| - 1], byPair);
      StepStaysGrounded(After(steps[..|steps| - 1]), steps[|steps| - 1]);
    } else {
      forall key: PositionKey ensures RowExplained(EMPTY, key) {}
    }
  }

  /** In every reachable store a source execution has at most one live close, whoever asked for the closes. */
  lemma AtMostOneLiveClose(steps: seq<Step>, i: nat, j: nat)
    requires var x := After(steps).executions;
             && i < |x| && j < |x| && Rivals(x[i], x[j], false) && x[i].status !in {Closed, Broken} && x[j].status !in {Closed, Broken}
    ensures i == j
  {
    LiveIff(After(steps).executions[i].status);
    LiveIff(After(steps).executions[j].status);
    RunsAreSound(steps, false);
  }

  /** While nobody closes by hand, even a pair of one user and rule has at most one live close. */
  lemma AtMostOneLiveClosePerPair(steps: seq<Step>, i: nat, j: nat)
    requires NoManual(steps)
    requires var x := After(steps).executions;
             && i < |x| && j < |x| && Rivals(x[i], x[j], true) && x[i].status !in {Closed, Broken} && x[j].status !in {Closed, Broken}
    ensures i == j
  {
    LiveIff(After(steps).executions[i].status);
    LiveIff(After(steps).executions[j].status);
    RunsAreSound(steps, true);
  }

  lemma KeepsAllTransitive(s: Store, t: Store, u: Store)
    requires KeepsAll(s, t) && KeepsAll(t, u)
    ensures KeepsAll(s, u)
  {
    assert Keeps(s, t, |u.executions|);
    KeepsTransitive(s, t, u, |u.executions|);
  }

  /** A closed pair at rest is still closed and at rest after anything that keeps all. */
  lemma RestLasts(s: Store, t: Store, e: nat)
    requires KeepsAll(s, t) && IsExecution(s, e) && ClosedAtRest(s, e)
    ensures IsExecution(t, e) && ClosedAtRest(t, e)
  {
    assert Keeps(s, t, |s.executions|);
    assert SameRow(s.executions[e], t.executions[e]);
  }

  /** Whatever happens after a run: dead closes keep their status for good, legs at rest never change, and a closed
      pair with nothing left on an exchange stays closed and at rest (RestLasts). */
  lemma {:induction false} SettledForGood(steps: seq<Step>, more: seq<Step>)
    ensures KeepsAll(After(steps), After(steps + more))
  {
    if more == [] {
      assert steps + more == steps;
    } else {
      var before := more[..|more| - 1];
      SettledForGood(steps, before);
      assert (steps + more)[..|steps + more| - 1] == steps + before;
      LastStepKeeps(steps + before, more[|more| - 1]);
      assert steps + more == steps + before + [more[|more| - 1]];
      KeepsAllTransitive(After(steps), After(steps + before), After(steps + more));
    }
  }

  lemma LastStepKeeps(steps: seq<Step>, step: Step)
    ensures KeepsAll(After(steps), After(steps + [step]))
  {
    RunsAreSound(steps, false);
    GroundedMeansClean(After(steps));
    StepKeeps(After(steps), step, false);
    assert (steps + [step])[..|steps|] == steps;
  }

  /** A closed pair whose legs are all at rest stays closed and at rest through everything that follows. */
  lemma ClosedPairStaysClosed(steps: seq<Step>, more: seq<Step>, e: nat)
    requires IsExecution(After(steps), e) && ClosedAtRest(After(steps), e)
    ensures IsExecution(After(steps + more), e) && ClosedAtRest(After(steps + more), e)
  {
    SettledForGood(steps, more);
    RestLasts(After(steps), After(steps + more), e);
  }

  /** Every leg of every reachable store is the outcome of a leg run with the fill records as its ledger, so all that
      holds over leg runs holds here. */
  lemma EveryLegIsALegRun(steps: seq<Step>, l: nat)
    requires l < |After(steps).legs|
    ensures var s := After(steps);
            && Explained(s.legs[l], LegLedger(s.fills, l))
            && 0 <= s.legs[l].retryCount <= MAX_RETRIES
            && LegLedger(s.fills, l) >= s.legs[l].filledQuantity
  {
    RunsAreSound(steps, false);
    LegFacts(After(steps), l);
  }

  /** Every position row of every reachable store is what its fill records make of it: in particular its quantity is
      their signed sum, reflected at zero. */
  lemma EveryRowIsItsLedger(steps: seq<Step>, key: PositionKey) returns (low: real)
    ensures var s := After(steps);
            && Lookup(s.positions, key) == Row(key.positionSide, KeyLedger(s.fills, key))
            && IsLowest(key.positionSide, KeyLedger(s.fills, key), low)
            && HeldQuantity(s, key) == Walk(key.positionSide, KeyLedger(s.fills, key)) - low
            && HeldQuantity(s, key) >= 0.0
  {
    RunsAreSound(steps, false);
    assert RowExplained(After(steps), key);
    low := ReflectedWalk(key.positionSide, KeyLedger(After(steps).fills, key));
    PlainSumIffNoOvershoot(key.positionSide, KeyLedger(After(steps).fills, key));
  }

  /** A close by hand overlaps another close of the same pair exactly when the pair was being closed already, for the
      sake of another opened execution. */
  lemma ManualCloseOverlapsIff(s: Store, m: Market, user: int, e: nat)
    requires Sound(s, true) && RequestClose(s, m, user, e).1.Started?
    ensures var t, x := RequestClose(s, m, user, e).0, s.executions[e];
            PairBusy(s, x)
            <==> exists i, j :: 0 <= i < j < |t.executions| && IsLiveCloseOf(t.executions[i], x.userId, x.ruleId, x.pairKey)
                                && IsLiveCloseOf(t.executions[j], x.userId, x.ruleId, x.pairKey)
  {
    CreateCloseAdds(s, m, e);
    var t, x, c := RequestClose(s, m, user, e).0, s.executions[e], |s.executions|;
    assert t.executions[c] == CreateClose(s, m, e).value.executions[c];
    forall i | 0 <= i < c ensures IsLiveCloseOf(t.executions[i], x.userId, x.ruleId, x.pairKey)
                                  == IsLiveCloseOf(s.executions[i], x.userId, x.ruleId, x.pairKey) {}
    assert IsLiveCloseOf(t.executions[c], x.userId, x.ruleId, x.pairKey);
    if PairBusy(s, x) {
      var i :| 0 <= i < c && IsLiveCloseOf(s.executions[i], x.userId, x.ruleId, x.pairKey);
      assert IsLiveCloseOf(t.executions[i], x.userId, x.ruleId, x.pairKey);
    }
  }
}

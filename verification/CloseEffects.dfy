/** What the ways of closing a pair come to in the tables: when a close is started, which rows it consists of, and when
    nothing happens. */
module CloseEffects {
  import opened Prelude
  import opened Positions
  import opened Quantities
  import opened Legs
  import opened Executions
  import opened SystemRuns
  import opened LegPairing

  /** What holds of every reachable store, and in the middle of a step once its leg has been processed. */
  ghost predicate Proper(s: Store) {
    Sound(s, false) && Grounded(s) && Paired(s)
  }

  lemma RunsAreProper(steps: seq<Step>)
    ensures Proper(After(steps))
  {
    RunsAreSound(steps, false);
    LegsArePaired(steps);
  }

  lemma EventStaysProper(s: Store, l: nat, ev: LegEvent)
    requires Proper(s) && l < |s.legs|
    ensures Proper(ApplyEvent(s, l, ev))
  {
    GroundedMeansClean(s);
    EventMovesLegs(s, l, ev);
    MoveLegs(s, ApplyEvent(s, l, ev), false);
    GroundedAfterEvent(s, l, ev);
    EventKeepsPaired(s, l, ev);
  }

  // ----------------------------------------------------------- what is held

  /** The row that the leg trades holds something. */
  predicate Holds(s: Store, leg: Leg) {
    LegKey(leg) in s.positions && s.positions[LegKey(leg)].quantity > 0.0
  }

  /** An order the other way round can be made for what the row holds. */
  predicate Closable(s: Store, m: Market, leg: Leg) {
    Holds(s, leg)
    && BuildPlan(m, leg.instrument, if leg.side == Buy then Sell else Buy, 0.0, Some(s.positions[LegKey(leg)].quantity)).orderQuantity > 0.0
  }

  /** A reachable row is open exactly while it holds something, so the queries see what the row says. */
  lemma HeldIsQuantity(s: Store, key: PositionKey)
    requires Grounded(s)
    ensures HeldQuantity(s, key) == if key in s.positions then s.positions[key].quantity else 0.0
    ensures HeldQuantity(s, key) >= 0.0
  {
    assert RowExplained(s, key);
    PlainSumIffNoOvershoot(key.positionSide, KeyLedger(s.fills, key));
  }

  lemma SeenQuantity(s: Store, leg: Leg)
    requires Proper(s)
    ensures PositionQuantity(s, LegKey(leg)).GetOr(0.0) > 0.0
            <==> Holds(s, leg) && leg.accountId > 0 && leg.instrument.marketType != "" && leg.instrument.symbol != ""
  {
    NoNetRows(s);
    HeldIsQuantity(s, LegKey(leg));
  }

  // ------------------------------------------------------------- a new close

  function LeftLeg(s: Store, e: nat): Leg
    requires HasBothLegs(s.legs, e)
  {
    s.legs[FirstLeg(s.legs, e, Left).value]
  }

  function RightLeg(s: Store, e: nat): Leg
    requires HasBothLegs(s.legs, e)
  {
    s.legs[FirstLeg(s.legs, e, Right).value]
  }

  /** A new leg of execution `c` closes what `source` has opened, but for less than one step of the market. */
  predicate Closes(s: Store, m: Market, leg: Leg, source: Leg, c: nat) {
    && leg.executionId == c && Fresh(leg) && Reverses(leg, source)
    && PricedAt(m, leg.instrument, leg.side, leg.requestedPrice) && leg.requestedPrice > 0.0 && leg.requestedQuantity > 0.0
    && LegKey(source) in s.positions
    && Covers(s.positions[LegKey(source)].quantity, m.ToBase(leg.instrument, leg.requestedQuantity), BaseStep(m, leg.instrument))
  }

  function ValueOf(m: Market, leg: Leg): real { m.ToBase(leg.instrument, leg.requestedQuantity) * leg.requestedPrice }

  function ValueOfAll(m: Market, legs: seq<Leg>): real {
    if legs == [] then 0.0 else ValueOfAll(m, legs[..|legs| - 1]) + ValueOf(m, legs[|legs| - 1])
  }

  /** The new legs close the left leg and the right leg, in this order, as far as they can be closed. */
  ghost predicate CloseBoth(s: Store, m: Market, e: nat, added: seq<Leg>)
    requires HasBothLegs(s.legs, e)
  {
    var left, right := Closable(s, m, LeftLeg(s, e)), Closable(s, m, RightLeg(s, e));
    && |added| == (if left then 1 else 0) + (if right then 1 else 0) && added != []
    && (left ==> Closes(s, m, added[0], LeftLeg(s, e), |s.executions|))
    && (right ==> Closes(s, m, added[|added| - 1], RightLeg(s, e), |s.executions|))
  }

  /** A close of the pair was added with its legs, worth what they are; of the executions there were, nothing changed. */
  ghost predicate AddsClose(s: Store, t: Store, m: Market, e: nat)
    requires IsExecution(s, e) && HasBothLegs(s.legs, e)
  {
    var x, c := s.executions[e], |s.executions|;
    && |t.executions| == c + 1 && t.executions[..c] == s.executions
    && s.legs <= t.legs && CloseBoth(s, m, e, t.legs[|s.legs|..])
    && t.executions[c] == Execution(x.userId, x.ruleId, Some(e), x.pairKey, Close, x.left, x.right,
                                    ValueOfAll(m, t.legs[|s.legs|..]), ToStart)
    && t.fills == s.fills && t.positions == s.positions && t.cooldowns == s.cooldowns
  }

  /** The same, and the pair counts as closing. */
  ghost predicate StartsClose(s: Store, t: Store, m: Market, e: nat)
    requires IsExecution(s, e) && HasBothLegs(s.legs, e)
  {
    IsExecution(t, e) && t.executions[e].status == Closing && AddsClose(s, SetStatus(t, e, s.executions[e].status), m, e)
  }

  ghost predicate CanClose(s: Store, m: Market, e: nat)
    requires HasBothLegs(s.legs, e)
  {
    Closable(s, m, LeftLeg(s, e)) || Closable(s, m, RightLeg(s, e))
  }

  lemma PlanCloses(s: Store, m: Market, source: Leg, i: Instrument, side: Side, c: nat)
    requires Grounded(s) && i == source.instrument && side != source.side
    ensures var plan := ClosePlan(s, m, source, i, side);
            && (plan.Some? <==> Closable(s, m, source))
            && (plan.Some? ==>
                  var leg := NewLeg(c, source.userId, source.accountId, source.role, source.positionSide, i, side, plan.value);
                  Closes(s, m, leg, source, c) && ValueOf(m, leg) == plan.value.orderValue)
  {
    HeldIsQuantity(s, LegKey(source));
    assert LegKey(source) == PositionKey(source.accountId, i.marketType, i.symbol, source.positionSide);
    assert side == if source.side == Buy then Sell else Buy;
    if ClosePlan(s, m, source, i, side).Some? {
      SizedLegCloses(s, m, source, side, HeldQuantity(s, LegKey(source)), c, ClosePlan(s, m, source, i, side).value);
    }
  }

  lemma SizedLegCloses(s: Store, m: Market, source: Leg, side: Side, held: real, c: nat, plan: Plan)
    requires LegKey(source) in s.positions && held == s.positions[LegKey(source)].quantity && held > 0.0 && side != source.side
    requires plan == BuildPlan(m, source.instrument, side, 0.0, Some(held)) && plan.orderQuantity > 0.0
    ensures var leg := NewLeg(c, source.userId, source.accountId, source.role, source.positionSide, source.instrument, side, plan);
            Closes(s, m, leg, source, c) && ValueOf(m, leg) == plan.orderValue
  {
    PlanIsPriced(m, source.instrument, side, 0.0, Some(held));
    CloseLegFitsPosition(m, source.instrument, side, held);
  }

  lemma PlanIsPriced(m: Market, i: Instrument, side: Side, orderAmount: real, base: Option<real>)
    ensures var plan := BuildPlan(m, i, side, orderAmount, base);
            plan.orderQuantity > 0.0 ==>
              && PricedAt(m, i, side, plan.requestedPrice) && plan.requestedPrice > 0.0
              && plan.orderValue == m.ToBase(i, plan.orderQuantity) * plan.requestedPrice
  {
    var c, _, _, _ := PlanIsLargestOrder(m, i, side, orderAmount, base);
    assert m.ToBase(i, BuildPlan(m, i, side, orderAmount, base).orderQuantity) == InBase(BuildPlan(m, i, side, orderAmount, base).orderQuantity, c);
  }

  lemma ValueOfTwo(m: Market, a: Leg, b: Leg)
    ensures ValueOfAll(m, [a]) == ValueOf(m, a) && ValueOfAll(m, [a, b]) == ValueOf(m, a) + ValueOf(m, b)
  {
    assert [a][..0] == [] && [a, b][..1] == [a];
  }

  /** A close can be made exactly when the row of one of the pair's legs holds something for which the market takes an order;
      and it then consists of a closing leg for each such row. */
  lemma CloseReversesPair(s: Store, m: Market, e: nat)
    requires Proper(s) && IsExecution(s, e) && s.executions[e].action == Open
    ensures HasBothLegs(s.legs, e)
    ensures CreateClose(s, m, e).Some? <==> CanClose(s, m, e)
    ensures CreateClose(s, m, e).Some? ==> AddsClose(s, CreateClose(s, m, e).value, m, e)
  {
    assert ExecutionFits(s, e);
    var x, l, r := s.executions[e], LeftLeg(s, e), RightLeg(s, e);
    assert LegFits(s, l) && LegFits(s, r);
    PlanCloses(s, m, l, x.left, Sell, |s.executions|);
    PlanCloses(s, m, r, x.right, Buy, |s.executions|);
    if CreateClose(s, m, e).Some? {
      var c, lp, rp := |s.executions|, ClosePlan(s, m, l, x.left, Sell), ClosePlan(s, m, r, x.right, Buy);
      var a, b := CloseLeg(lp, c, x.userId, l, Left, x.left, Sell), CloseLeg(rp, c, x.userId, r, Right, x.right, Buy);
      RowsOfClose(s, CreateClose(s, m, e).value, m, e, a, b, PlannedValue(lp) + PlannedValue(rp));
    }
  }

  /** The legs for one side of a close. */
  ghost predicate ClosesSide(s: Store, m: Market, legs: seq<Leg>, source: Leg) {
    |legs| == (if Closable(s, m, source) then 1 else 0) && (legs != [] ==> Closes(s, m, legs[0], source, |s.executions|))
  }

  lemma RowsOfClose(s: Store, t: Store, m: Market, e: nat, a: seq<Leg>, b: seq<Leg>, amount: real)
    requires IsExecution(s, e) && HasBothLegs(s.legs, e) && a + b != []
    requires ClosesSide(s, m, a, LeftLeg(s, e)) && ClosesSide(s, m, b, RightLeg(s, e))
    requires amount == (if a == [] then 0.0 else ValueOf(m, a[0])) + if b == [] then 0.0 else ValueOf(m, b[0])
    requires var x := s.executions[e];
             t == s.(executions := s.executions + [x.(source := Some(e), action := Close, status := ToStart, plannedAmount := amount)],
                     legs := s.legs + a + b)
    ensures AddsClose(s, t, m, e)
  {
    assert t.legs[|s.legs|..] == a + b;
    if a != [] && b != [] {
      assert a + b == [a[0], b[0]];
      ValueOfTwo(m, a[0], b[0]);
    } else if a != [] {
      assert a + b == [a[0]];
      ValueOfTwo(m, a[0], a[0]);
    } else {
      assert a + b == [b[0]];
      ValueOfTwo(m, b[0], b[0]);
    }
  }

  lemma CloseAndMarkDoes(s: Store, m: Market, e: nat)
    requires Proper(s) && IsExecution(s, e) && s.executions[e].action == Open
    ensures HasBothLegs(s.legs, e)
    ensures if CanClose(s, m, e) then StartsClose(s, CloseAndMark(s, m, e), m, e) else CloseAndMark(s, m, e) == s
  {
    CloseReversesPair(s, m, e);
    if CreateClose(s, m, e).Some? {
      var t := CreateClose(s, m, e).value;
      assert t.executions[e] == t.executions[..|s.executions|][e];
      var u := CloseAndMark(s, m, e);
      assert SetStatus(u, e, s.executions[e].status).executions == t.executions;
      assert SetStatus(u, e, s.executions[e].status) == t;
    }
  }

  // ------------------------------------------------------------ the triggers

  /** Some close of the execution's user, rule and pair key is neither closed nor failed. */
  ghost predicate Busy(s: Store, x: Execution) {
    exists i :: 0 <= i < |s.executions| && ClosesPairOf(s.executions[i], x) && s.executions[i].status !in {Closed, Broken}
  }

  predicate ClosesPairOf(y: Execution, x: Execution) {
    y.action == Close && y.userId == x.userId && y.ruleId == x.ruleId && y.pairKey == x.pairKey
  }

  lemma BusyIff(s: Store, x: Execution)
    ensures PairBusy(s, x) <==> Busy(s, x)
  {
    forall status ensures Live(status) <==> status !in {Closed, Broken} { LiveIff(status); }
    if PairBusy(s, x) {
      var i :| 0 <= i < |s.executions| && IsLiveCloseOf(s.executions[i], x.userId, x.ruleId, x.pairKey);
      assert ClosesPairOf(s.executions[i], x);
    }
    if Busy(s, x) {
      var i :| 0 <= i < |s.executions| && ClosesPairOf(s.executions[i], x) && s.executions[i].status !in {Closed, Broken};
      assert IsLiveCloseOf(s.executions[i], x.userId, x.ruleId, x.pairKey);
    }
  }

  /** The side of a pair still has its position, as the monitor sees it. */
  predicate IsExposed(s: Store, leg: Leg) {
    Holds(s, leg) && leg.accountId > 0 && leg.instrument.marketType != "" && leg.instrument.symbol != ""
  }

  /** The pair is open and nothing is closing it. */
  ghost predicate IsOpenAndIdle(s: Store, e: nat) {
    IsExecution(s, e) && s.executions[e].action == Open && s.executions[e].status == Opened && !Busy(s, s.executions[e])
  }

  lemma ExposureIs(s: Store, e: nat)
    requires Proper(s) && IsExecution(s, e) && s.executions[e].action == Open
    ensures HasBothLegs(s.legs, e)
    ensures ExposureOf(s, e).left > 0.0 <==> IsExposed(s, LeftLeg(s, e))
    ensures ExposureOf(s, e).right > 0.0 <==> IsExposed(s, RightLeg(s, e))
  {
    assert ExecutionFits(s, e);
    assert LegFits(s, LeftLeg(s, e)) && LegFits(s, RightLeg(s, e));
    SeenQuantity(s, LeftLeg(s, e));
    SeenQuantity(s, RightLeg(s, e));
  }

  /** What one inspection by the position monitor does in any reachable store. A pair that is open and idle is closed where
      neither side holds anything; a close of it is started exactly when one can be made and one side alone is left, or both
      are and the strategy wants it; and in every other case nothing happens. */
  lemma InspectionDoes(steps: seq<Step>, m: Market, e: nat, wantsClose: bool)
    ensures var s := After(steps);
            var t := InspectOpen(s, m, e, wantsClose);
            if !IsOpenAndIdle(s, e) then t == s
            else
              && HasBothLegs(s.legs, e)
              && var left, right := IsExposed(s, LeftLeg(s, e)), IsExposed(s, RightLeg(s, e));
                 if !left && !right then t == SetStatus(s, e, Closed)
                 else if CanClose(s, m, e) && (left && right ==> wantsClose) then StartsClose(s, t, m, e)
                 else t == s
  {
    var s := After(steps);
    RunsAreProper(steps);
    if IsExecution(s, e) { BusyIff(s, s.executions[e]); }
    if IsOpenAndIdle(s, e) {
      ExposureIs(s, e);
      CloseAndMarkDoes(s, m, e);
    }
  }

  /** Switching a rule off starts a close of each pair of the rule that is open and idle, wherever one can be made. */
  lemma RuleOffDoes(steps: seq<Step>, m: Market, userId: int, ruleId: int, e: nat)
    ensures var s := After(steps);
            var t := CloseForRule(s, m, userId, ruleId, e);
            if !IsOpenAndIdle(s, e) || s.executions[e].userId != userId || s.executions[e].ruleId != ruleId then t == s
            else HasBothLegs(s.legs, e) && if CanClose(s, m, e) then StartsClose(s, t, m, e) else t == s
  {
    var s := After(steps);
    RunsAreProper(steps);
    if IsExecution(s, e) { BusyIff(s, s.executions[e]); }
    if IsOpenAndIdle(s, e) { CloseAndMarkDoes(s, m, e); }
  }

  /** `c` closes `e` and is neither closed nor failed. */
  predicate IsCloseUnderWay(s: Store, e: nat, c: nat) {
    IsExecution(s, c) && s.executions[c].action == Close && s.executions[c].source == Some(e) && s.executions[c].status !in {Closed, Broken}
  }

  ghost predicate IsUnderWay(s: Store, e: nat) { exists c: nat :: IsCloseUnderWay(s, e, c) }

  /** The newest close is live exactly when any is. */
  lemma LatestIsLiveIff(s: Store, e: nat)
    requires OneLive(s, false)
    ensures var latest := LatestClose(s.executions, e);
            && (latest.Some? && Live(s.executions[latest.value].status) <==> IsUnderWay(s, e))
            && forall c: nat :: IsCloseUnderWay(s, e, c) ==> latest == Some(c)
  {
    var latest := LatestClose(s.executions, e);
    forall status ensures Live(status) <==> status !in {Closed, Broken} { LiveIff(status); }
    if latest.Some? && Live(s.executions[latest.value].status) { assert IsCloseUnderWay(s, e, latest.value); }
    forall c: nat | IsCloseUnderWay(s, e, c) ensures latest == Some(c) {
      assert Live(s.executions[c].status);
      assert latest.Some? && c <= latest.value;
      if c < latest.value { assert Rivals(s.executions[c], s.executions[latest.value], false); }
    }
  }

  /** What a request by hand does in any reachable store: a user's opened pair that is not closed yet counts as closing from
      then on, under the close that is under way or else under a new one; without either, and for anything else, it is refused
      and nothing happens. */
  lemma RequestDoes(steps: seq<Step>, m: Market, userId: int, e: nat)
    ensures var s := After(steps);
            var (t, answer) := RequestClose(s, m, userId, e);
            if !IsExecution(s, e) || s.executions[e].userId != userId || s.executions[e].action != Open || s.executions[e].status == Closed
            then t == s && answer == Refuse
            else
              && HasBothLegs(s.legs, e)
              && if IsUnderWay(s, e) then answer.AlreadyPending? && IsCloseUnderWay(s, e, answer.closeId) && t == SetStatus(s, e, Closing)
                 else if CanClose(s, m, e) then answer == Started(|s.executions|) && StartsClose(s, t, m, e)
                 else t == s && answer == Refuse
  {
    var s := After(steps);
    RunsAreProper(steps);
    if IsExecution(s, e) && s.executions[e].userId == userId && s.executions[e].action == Open && s.executions[e].status != Closed {
      LatestIsLiveIff(s, e);
      CloseReversesPair(s, m, e);
      CloseAndMarkDoes(s, m, e);
    }
  }

  // -------------------------------------------------------------- a new pair

  /** What opening a pair writes. It is refused exactly when an account is missing, a market is not a swap or one of the two
      orders cannot be sized; otherwise the left leg buys a long row with the amount, at the price of buyers, and the right
      leg sells a short one to match it, at the price of sellers. */
  lemma OpeningDoes(s: Store, m: Market, p: PairPlan)
    ensures var l := BuildPlan(m, p.left, Buy, p.orderAmount, None);
            var r := BuildPlan(m, p.right, Sell, p.orderAmount, Some(l.baseQuantity));
            && (OpenPair(s, m, p).Some?
                <==> && p.leftAccount > 0 && p.rightAccount > 0 && p.left.marketType == "swap" && p.right.marketType == "swap"
                     && l.orderQuantity > 0.0 && r.orderQuantity > 0.0)
            && (OpenPair(s, m, p).Some? ==> OpensPair(s, OpenPair(s, m, p).value, m, p, l, r))
  {
    if OpenPair(s, m, p).Some? {
      var l := OpenLeft(m, p.left, p.orderAmount);
      PlanIsPriced(m, p.left, Buy, p.orderAmount, None);
      PlanIsPriced(m, p.right, Sell, p.orderAmount, Some(l.baseQuantity));
      OpenedPairIsHedged(m, p.left, p.right, p.orderAmount);
    }
  }

  predicate Orders(leg: Leg, m: Market, e: nat, userId: int, accountId: int, i: Instrument, side: Side, plan: Plan) {
    && leg.executionId == e && leg.userId == userId && leg.accountId == accountId && leg.instrument == i && leg.side == side
    && Fresh(leg) && PricedAt(m, i, side, leg.requestedPrice) && leg.requestedQuantity == plan.orderQuantity
  }

  ghost predicate OpensPair(s: Store, t: Store, m: Market, p: PairPlan, l: Plan, r: Plan) {
    var e, n := |s.executions|, |s.legs|;
    && t.executions == s.executions + [Execution(p.userId, p.ruleId, None, p.pairKey, Open, p.left, p.right, p.orderAmount, ToStart)]
    && s.legs <= t.legs && |t.legs| == n + 2
    && Orders(t.legs[n], m, e, p.userId, p.leftAccount, p.left, Buy, l) && t.legs[n].role == Left && t.legs[n].positionSide == Long
    && Orders(t.legs[n + 1], m, e, p.userId, p.rightAccount, p.right, Sell, r) && t.legs[n + 1].role == Right
    && t.legs[n + 1].positionSide == Short
    && Covers(m.ToBase(p.left, t.legs[n].requestedQuantity), m.ToBase(p.right, t.legs[n + 1].requestedQuantity), BaseStep(m, p.right))
    && t.fills == s.fills && t.positions == s.positions && t.cooldowns == s.cooldowns
  }
}

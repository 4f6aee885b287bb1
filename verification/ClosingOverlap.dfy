/** A run after which a pair is being closed twice at once: opened twice, closed by force for its second opening and by hand
    for its first. */
module ClosingOverlap {
  import opened Prelude
  import opened Positions
  import opened Quantities
  import opened Legs
  import opened Executions
  import opened SystemRuns

  const PERP := Instrument("gate", "swap", "X/USDT:USDT")

  const PRICED := Market(map[], map[PERP := Ticker(1.0, 1.0, 1.0)])

  const PLAN := PairPlan(1, 1, "1:x", 7, 8, PERP, PERP, 2.0)

  const TWO := Plan(2.0, 2.0, 2.0, 1.0)

  /** The account of the right legs has gone away. */
  const ENV := Env({(1, 1)}, map[], {(7, 1)}, PRICED)

  const ACCEPTED := Exchange(Accepted("o"), Unanswered, false)

  const FILLED := Exchange(Refused, Answer(FilledOrder, 2.0, 1.0), false)

  const START := StartPair(PRICED, PLAN)

  /** Opened; opened again; the left leg of the second opening is placed, and filled; its right leg fails; the first opening
      is closed by hand. */
  const RUN := [START, START, RunLeg(ENV, 2, ACCEPTED), RunLeg(ENV, 2, FILLED), RunLeg(ENV, 3, FILLED), Manual(PRICED, 1, 0)]

  function Opening(status: ExecutionStatus): Execution {
    Execution(1, 1, None, "1:x", Open, PERP, PERP, 2.0, status)
  }

  function LeftLeg(e: nat, orderId: string, average: real, filled: real, status: LegStatus): Leg {
    Leg(e, 1, 7, Left, Long, PERP, Buy, 1.0, 2.0, orderId, 0, average, filled, status)
  }

  function RightLeg(e: nat, status: LegStatus): Leg {
    Leg(e, 1, 8, Right, Short, PERP, Sell, 1.0, 2.0, "", 0, 0.0, 0.0, status)
  }

  const FIRST := [LeftLeg(0, "", 0.0, 0.0, Pending), RightLeg(0, Pending)]

  const KEY := PositionKey(7, "swap", "X/USDT:USDT", Long)

  const HELD := Book(None, Long, Trade(Buy, 2.0, 1.0, 1, 2, 0))

  const RECORD := FillRecord(1, 2, KEY, Buy, 1.0, 2.0)

  function Opened(status: ExecutionStatus, left: Leg, right: LegStatus, fills: seq<FillRecord>, positions: map<PositionKey, Position>): Store {
    Store([Opening(ToStart), Opening(status)], FIRST + [left, RightLeg(1, right)], fills, positions, {})
  }

  const AFTER1 := Store([Opening(ToStart)], FIRST, [], map[], {})

  const AFTER2 := Opened(ToStart, LeftLeg(1, "", 0.0, 0.0, Pending), Pending, [], map[])

  const AFTER3 := Opened(ExecutionStatus.Opening, LeftLeg(1, "o", 0.0, 0.0, Submitted), Pending, [], map[])

  const AFTER4 := Opened(ExecutionStatus.Opening, LeftLeg(1, "o", 1.0, 2.0, Filled), Pending, [RECORD], map[KEY := HELD])

  lemma TwoAreWanted()
    ensures BuildPlan(PRICED, PERP, Buy, 2.0, None) == TWO
    ensures BuildPlan(PRICED, PERP, Sell, 2.0, Some(2.0)) == TWO == BuildPlan(PRICED, PERP, Sell, 0.0, Some(2.0))
  {
    assert PRICED.Unit(PERP) == 1.0 && PRICED.LatestPrice(PERP, Sell) == 1.0 == PRICED.LatestPrice(PERP, Buy);
    assert RoundDown(2.0 / 1.0, 0.0) == 2.0 && WantedBase(2.0, None, 1.0) == 2.0;
  }

  lemma TwoAreHeld()
    ensures HELD.isOpen && HELD.quantity == 2.0
  {
  }

  lemma Step1()
    ensures Take(EMPTY, START) == AFTER1
  {
    TwoAreWanted();
  }

  lemma Step2()
    ensures Take(AFTER1, START) == AFTER2
  {
    TwoAreWanted();
  }

  /** Reconciling a second opening that is still under way. */
  lemma UnderWay(s: Store, left: Leg, fills: seq<FillRecord>, positions: map<PositionKey, Position>, status: ExecutionStatus)
    requires s == Opened(status, left, Pending, fills, positions) && left.executionId == 1 && left.status in {Submitted, Filled}
    ensures Reconcile(s, PRICED, 1) == Opened(ExecutionStatus.Opening, left, Pending, fills, positions)
  {
    assert s.legs[2].status in LegStatuses(s, 1) && s.legs[3].status in LegStatuses(s, 1);
  }

  lemma Step3()
    ensures Take(AFTER2, RunLeg(ENV, 2, ACCEPTED)) == AFTER3
  {
    var placed := LeftLeg(1, "o", 0.0, 0.0, Submitted);
    var ev := EventOf(AFTER2, ENV, 2, ACCEPTED);
    assert Next(AFTER2.legs[2], ev) == placed;
    assert ApplyEvent(AFTER2, 2, ev) == Opened(ToStart, placed, Pending, [], map[]);
    UnderWay(ApplyEvent(AFTER2, 2, ev), placed, [], map[], ToStart);
  }

  lemma Step4()
    ensures Take(AFTER3, RunLeg(ENV, 2, FILLED)) == AFTER4
  {
    var ev, filled := EventOf(AFTER3, ENV, 2, FILLED), LeftLeg(1, "o", 1.0, 2.0, Filled);
    FillEvent(ev);
    assert ApplyEvent(AFTER3, 2, ev) == Opened(ExecutionStatus.Opening, filled, Pending, [RECORD], map[KEY := HELD]);
    UnderWay(ApplyEvent(AFTER3, 2, ev), filled, [RECORD], map[KEY := HELD], ExecutionStatus.Opening);
  }

  lemma FillEvent(ev: LegEvent)
    requires ev == EventOf(AFTER3, ENV, 2, FILLED)
    ensures BookedBy(AFTER3.legs[2], ev) == 2.0 && ev.pollReply.average == 1.0 && !Escapes(AFTER3.legs[2], ev)
    ensures Next(AFTER3.legs[2], ev) == LeftLeg(1, "o", 1.0, 2.0, Filled)
  {
    assert PRICED.Unit(PERP) == 1.0;
    assert ev.pollReply == Report(FilledOrder, 2.0, 2.0 * 1.0, 1.0);
  }

  /** The close that the failed second opening forces: it sells the two units held. */
  function ForcedClose(source: nat): Execution {
    Execution(1, 1, Some(source), "1:x", Close, PERP, PERP, 2.0, ToStart)
  }

  function ClosingLeg(e: nat): Leg {
    Leg(e, 1, 7, Left, Long, PERP, Sell, 1.0, 2.0, "", 0, 0.0, 0.0, Pending)
  }

  const AFTER5 := Store([Opening(ToStart), Opening(ExecutionStatus.Closing), ForcedClose(1)],
                        FIRST + [LeftLeg(1, "o", 1.0, 2.0, Filled), RightLeg(1, LegStatus.Failed), ClosingLeg(2)],
                        [RECORD], map[KEY := HELD], {})

  const BROKEN := Opened(ExecutionStatus.Broken, LeftLeg(1, "o", 1.0, 2.0, Filled), LegStatus.Failed, [RECORD], map[KEY := HELD])

  /** Closing either opening plans to sell what the left account holds; the right account holds nothing. */
  lemma PlanToSell(s: Store)
    requires s.positions == map[KEY := HELD]
    ensures forall e, orderId, average, filled, status ::
              ClosePlan(s, PRICED, LeftLeg(e, orderId, average, filled, status), PERP, Sell) == Some(TWO)
    ensures forall e, status :: ClosePlan(s, PRICED, RightLeg(e, status), PERP, Buy) == None
  {
    TwoAreWanted();
    TwoAreHeld();
  }

  lemma SecondIsForced()
    ensures CreateClose(BROKEN, PRICED, 1) == Some(AFTER5.(executions := [Opening(ToStart), Opening(ExecutionStatus.Broken), ForcedClose(1)]))
  {
    SecondLegs(BROKEN.legs);
    PlanToSell(BROKEN);
    ClosesWith(BROKEN, 1, BROKEN.legs[2], BROKEN.legs[3]);
    assert BROKEN.legs + [ClosingLeg(2)] == AFTER5.legs;
    assert BROKEN.executions + [ForcedClose(1)] == [Opening(ToStart), Opening(ExecutionStatus.Broken), ForcedClose(1)];
  }

  lemma SecondLegs(legs: seq<Leg>)
    requires legs == BROKEN.legs
    ensures FirstLeg(legs, 1, Left) == Some(2) && FirstLeg(legs, 1, Right) == Some(3)
  {
    assert legs[..3] == FIRST + [legs[2]] && legs[..3][..2] == FIRST && FIRST[..1][..0] == [];
    assert FirstLeg(FIRST, 1, Left) == None && FirstLeg(FIRST, 1, Right) == None;
    assert FirstLeg(legs[..3], 1, Right) == None;
  }

  /** Closing an opening whose left leg can sell two units and whose right leg has nothing to buy back. */
  lemma ClosesWith(s: Store, e: nat, left: Leg, right: Leg)
    requires IsExecution(s, e) && SameRow(s.executions[e], Opening(ToStart)) && s.executions[e].action == Open
    requires FirstLeg(s.legs, e, Left).Some? && s.legs[FirstLeg(s.legs, e, Left).value] == left
    requires FirstLeg(s.legs, e, Right).Some? && s.legs[FirstLeg(s.legs, e, Right).value] == right
    requires left.accountId == 7 && left.positionSide == Long
    requires ClosePlan(s, PRICED, left, PERP, Sell) == Some(TWO) && ClosePlan(s, PRICED, right, PERP, Buy) == None
    ensures CreateClose(s, PRICED, e)
            == Some(s.(executions := s.executions + [ForcedClose(e)], legs := s.legs + [ClosingLeg(|s.executions|)]))
  {
    var c := |s.executions|;
    assert CloseLeg(Some(TWO), c, 1, left, Left, PERP, Sell) == [ClosingLeg(c)];
    assert s.legs + [ClosingLeg(c)] + [] == s.legs + [ClosingLeg(c)];
  }

  lemma Step5()
    ensures Take(AFTER4, RunLeg(ENV, 3, FILLED)) == AFTER5
  {
    var ev := EventOf(AFTER4, ENV, 3, FILLED);
    var failed := ApplyEvent(AFTER4, 3, ev);
    assert failed.legs == BROKEN.legs;
    assert failed.legs[3].status in LegStatuses(failed, 1);
    assert SetStatus(failed, 1, Broken) == BROKEN;
    ForcedAfterFailure();
  }

  lemma ForcedAfterFailure()
    ensures HandleFailed(BROKEN, PRICED, 1) == AFTER5
  {
    assert Abandoned(BROKEN, 1).legs == BROKEN.legs;
    assert LegExposed(BROKEN, BROKEN.legs[2]);
    SecondIsForced();
  }

  lemma FirstIsClosed()
    ensures CreateClose(AFTER5, PRICED, 0)
            == Some(AFTER5.(executions := AFTER5.executions + [ForcedClose(0)], legs := AFTER5.legs + [ClosingLeg(3)]))
  {
    FirstLegStands(AFTER5.legs);
    PlanToSell(AFTER5);
    ClosesWith(AFTER5, 0, AFTER5.legs[0], AFTER5.legs[1]);
  }

  lemma FirstLegStands(legs: seq<Leg>)
    requires FIRST <= legs
    ensures FirstLeg(legs, 0, Left) == Some(0) && FirstLeg(legs, 0, Right) == Some(1)
  {
    if |legs| > 2 {
      FirstLegStands(legs[..|legs| - 1]);
    } else {
      assert legs == FIRST && FIRST[..1][..0] == [];
    }
  }

  const AFTER6 := Store([Opening(ExecutionStatus.Closing), Opening(ExecutionStatus.Closing), ForcedClose(1), ForcedClose(0)],
                        AFTER5.legs + [ClosingLeg(3)], AFTER5.fills, AFTER5.positions, {})

  lemma Step6()
    ensures Take(AFTER5, Manual(PRICED, 1, 0)) == AFTER6
  {
    var x := AFTER5.executions;
    assert x[..2] == [Opening(ToStart), Opening(ExecutionStatus.Closing)] && x[..2][..1] == [Opening(ToStart)] && x[..2][..1][..0] == [];
    assert LatestClose(x[..2], 0) == None && LatestClose(x, 0) == None;
    FirstIsClosed();
    assert (x + [ForcedClose(0)])[0 := Opening(ExecutionStatus.Closing)] == AFTER6.executions;
  }

  /** The store after `k` steps of the run. */
  function Reached(k: nat): Store {
    if k == 0 then EMPTY else if k == 1 then AFTER1 else if k == 2 then AFTER2 else if k == 3 then AFTER3
    else if k == 4 then AFTER4 else if k == 5 then AFTER5 else AFTER6
  }

  lemma StepLeads(k: nat)
    requires k < 6
    ensures Take(Reached(k), RUN[k]) == Reached(k + 1)
  {
    match k
    case 0 => Step1();
    case 1 => Step2();
    case 2 => Step3();
    case 3 => Step4();
    case 4 => Step5();
    case 5 => Step6();
  }

  lemma {:induction false} RunReaches(k: nat)
    requires k <= 6
    ensures After(RUN[..k]) == Reached(k)
  {
    if k > 0 {
      RunReaches(k - 1);
      StepLeads(k - 1);
      assert RUN[..k][..k - 1] == RUN[..k - 1];
    }
  }

  /** The run is a run of the system, and it ends with two live closes of one pair: closing by hand does not see the other
      opening's close, where every other way of closing would wait for it. */
  lemma ManualCloseCanOverlap()
    ensures !OneLive(After(RUN), true) && OneLive(After(RUN), false)
    ensures IsExecution(After(RUN[..5]), 0) && PairBusy(After(RUN[..5]), After(RUN[..5]).executions[0])
  {
    RunReaches(5);
    RunReaches(6);
    assert RUN[..6] == RUN;
    RunsAreSound(RUN, false);
    assert IsLiveCloseOf(AFTER5.executions[2], 1, 1, "1:x");
    assert Rivals(AFTER6.executions[2], AFTER6.executions[3], true) && Live(AFTER6.executions[2].status);
  }
}

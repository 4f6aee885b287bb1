/** Creating executions and their legs row by row (`arbitrage_execution_plan_service`). */
module ExecutionPlanService {
  import opened Prelude
  import opened Positions
  import opened Quantities
  import opened Legs
  import opened Executions
  import opened ExecutionRepository

  class PlanService {
    const repo: Repository

    constructor (repo: Repository)
      ensures this.repo == repo
    {
      this.repo := repo;
    }

    /** The leg of an execution in that role: the first one listed. */
    method SourceLeg(e: nat, role: LegRole) returns (found: Option<Leg>)
      ensures var first := FirstLeg(repo.legs, e, role);
              found == if first.Some? then Some(repo.legs[first.value]) else None
    {
      var rows := ListLegs(repo.legs, e);
      for i := 0 to |rows|
        invariant forall j :: 0 <= j < i ==> rows[j].leg.role != role
      {
        if rows[i].leg.role == role {
          FirstListed(repo.legs, e, role, i);
          return Some(rows[i].leg);
        }
      }
      FirstListed(repo.legs, e, role, |rows|);
      return None;
    }

    /** What one side of a close orders. */
    method PlanSide(m: Market, leg: Leg, i: Instrument, side: Side) returns (plan: Option<Plan>)
      ensures plan == ClosePlan(repo.Rows(), m, leg, i, side)
    {
      var position := OpenPosition(repo.Rows(), PositionKey(leg.accountId, i.marketType, i.symbol, leg.positionSide));
      var held := if position.Some? then position.value.quantity else 0.0;
      plan := None;
      if held > 0.0 {
        var sized := BuildPlan(m, i, side, 0.0, Some(held));
        if sized.orderQuantity > 0.0 { plan := Some(sized); }
      }
    }

    method CreateCloseExecution(m: Market, e: nat) returns (created: Option<nat>)
      requires IsExecution(repo.Rows(), e)
      modifies repo
      ensures match CreateClose(old(repo.Rows()), m, e)
              case None => created == None && repo.Rows() == old(repo.Rows())
              case Some(s) => created == Some(|old(repo.executions)|) && repo.Rows() == s
    {
      var row := repo.executions[e];
      if row.action == Close { return None; }
      var left := SourceLeg(e, Left);
      var right := SourceLeg(e, Right);
      if left.None? || right.None? { return None; }
      var leftPlan := PlanSide(m, left.value, row.left, Sell);
      var rightPlan := PlanSide(m, right.value, row.right, Buy);
      if leftPlan.None? && rightPlan.None? { return None; }
      var amount := 0.0;
      if leftPlan.Some? { amount := amount + leftPlan.value.orderValue; }
      if rightPlan.Some? { amount := amount + rightPlan.value.orderValue; }
      var id := repo.CreateExecution(Execution(row.userId, row.ruleId, Some(e), row.pairKey, Close, row.left, row.right, amount, ToStart));
      WriteCloseLeg(id, row.userId, left.value, Left, row.left, Sell, leftPlan);
      WriteCloseLeg(id, row.userId, right.value, Right, row.right, Buy, rightPlan);
      return Some(id);
    }

    method WriteCloseLeg(id: nat, userId: int, source: Leg, role: LegRole, i: Instrument, side: Side, plan: Option<Plan>)
      modifies repo
      ensures repo.Rows() == old(repo.Rows()).(legs := old(repo.legs) + CloseLeg(plan, id, userId, source, role, i, side))
    {
      if plan.Some? {
        var _ := repo.CreateOrderLeg(NewLeg(id, userId, source.accountId, role, source.positionSide, i, side, plan.value));
      } else {
        assert repo.legs + [] == repo.legs;
      }
    }

    /** `create_open_execution` for either strategy, whose two branches write the same rows. */
    method CreateOpenExecution(m: Market, p: PairPlan) returns (created: Option<nat>)
      modifies repo
      ensures match OpenPair(old(repo.Rows()), m, p)
              case None => created == None && repo.Rows() == old(repo.Rows())
              case Some(s) => created == Some(|old(repo.executions)|) && repo.Rows() == s
    {
      if p.leftAccount <= 0 || p.rightAccount <= 0 || p.left.marketType != "swap" || p.right.marketType != "swap" { return None; }
      var leftPlan := BuildPlan(m, p.left, Buy, p.orderAmount, None);
      var rightPlan := BuildPlan(m, p.right, Sell, p.orderAmount, Some(leftPlan.baseQuantity));
      if leftPlan.orderQuantity <= 0.0 || rightPlan.orderQuantity <= 0.0 { return None; }
      var id := repo.CreateExecution(Execution(p.userId, p.ruleId, None, p.pairKey, Open, p.left, p.right, p.orderAmount, ToStart));
      var _ := repo.CreateOrderLeg(NewLeg(id, p.userId, p.leftAccount, Left, Long, p.left, Buy, leftPlan));
      var _ := repo.CreateOrderLeg(NewLeg(id, p.userId, p.rightAccount, Right, Short, p.right, Sell, rightPlan));
      return Some(id);
    }
  }

  /** The first listed leg in a role is the first stored one. */
  lemma {:induction false} FirstListed(legs: seq<Leg>, e: nat, role: LegRole, i: nat)
    requires i <= |ListLegs(legs, e)| && forall j :: 0 <= j < i ==> ListLegs(legs, e)[j].leg.role != role
    ensures i == |ListLegs(legs, e)| ==> FirstLeg(legs, e, role) == None
    ensures i < |ListLegs(legs, e)| && ListLegs(legs, e)[i].leg.role == role
            ==> FirstLeg(legs, e, role) == Some(ListLegs(legs, e)[i].id) && ListLegs(legs, e)[i].leg == legs[ListLegs(legs, e)[i].id]
    decreases |legs|, 1
  {
    ListedRows(legs, e);
    if legs != [] {
      var n := |legs| - 1;
      FirstListedEarlier(legs, e, role, i, ListLegs(legs, e), ListLegs(legs[..n], e));
    }
  }

  lemma {:induction false} FirstListedEarlier(legs: seq<Leg>, e: nat, role: LegRole, i: nat, rows: seq<LegRow>, earlier: seq<LegRow>)
    requires legs != [] && rows == ListLegs(legs, e) && earlier == ListLegs(legs[..|legs| - 1], e)
    requires i <= |rows| && forall j :: 0 <= j < i ==> rows[j].leg.role != role
    ensures i == |rows| ==> FirstLeg(legs, e, role) == None
    ensures i < |rows| && rows[i].leg.role == role ==> FirstLeg(legs, e, role) == Some(rows[i].id)
    decreases |legs|, 0
  {
    var n := |legs| - 1;
    var added := if legs[n].executionId == e then [LegRow(n, legs[n])] else [];
    assert rows == earlier + added;
    forall j | 0 <= j < |earlier| ensures rows[j] == earlier[j] {}
    if i < |earlier| {
      FirstListed(legs[..n], e, role, i);
    } else {
      FirstListed(legs[..n], e, role, |earlier|);
      assert FirstLeg(legs[..n], e, role) == None;
      if i < |rows| { assert rows[i] == LegRow(n, legs[n]); } else if added != [] { assert rows[|earlier|] == LegRow(n, legs[n]); }
    }
  }
}

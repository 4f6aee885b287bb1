/** The leg worker, statement by statement (`arbitrage_execution_service`): every method writes exactly the rows that the
    functions of Executions say. */
module ExecutionService {
  import opened Prelude
  import opened Positions
  import opened Quantities
  import opened Legs
  import opened Executions
  import opened ExecutionRepository
  import opened ExecutionPlanService
  import Text

  class Service {
    const repo: Repository
    const planner: PlanService

    constructor (planner: PlanService)
      ensures this.planner == planner && repo == planner.repo
    {
      this.planner, repo := planner, planner.repo;
    }

    ghost predicate Wired() { planner.repo == repo }

    // ------------------------------------------------------------- order legs

    /** The row handed in is the stored one; `raised` tells that building a client failed. */
    method ProcessOrderLeg(env: Env, l: nat, ex: Exchange) returns (raised: bool)
      requires Wired() && Listed(repo.Rows(), l)
      modifies repo
      ensures repo.Rows() == ProcessLeg(old(repo.Rows()), env, l, ex)
    {
      var leg := repo.legs[l];
      var blocked := BlockDisabledOpeningFlow(env, l, leg);
      if blocked {
        ReconcileExecution(env.market, leg.executionId);
        return false;
      }
      if Submittable(leg.status) {
        raised := SubmitOrder(env, l, leg, ex.submit);
      } else {
        raised := MonitorOrder(env, l, leg, ex.poll, ex.expired);
      }
      if raised { return; }
      ReconcileExecution(env.market, leg.executionId);
    }

    method BlockDisabledOpeningFlow(env: Env, l: nat, leg: Leg) returns (blocked: bool)
      requires Listed(repo.Rows(), l) && leg == repo.legs[l]
      modifies repo
      ensures blocked == OpeningBlocked(env, old(repo.executions)[leg.executionId], leg)
      ensures repo.Rows() == if blocked then ApplyEvent(old(repo.Rows()), l, Block) else old(repo.Rows())
    {
      var x := repo.executions[leg.executionId];
      if x.action != Open { return false; }
      if x.ruleId > 0 && leg.userId > 0 {
        if (x.ruleId, leg.userId) !in env.enabledRules {
          repo.UpdateOrderLegStatus(l, To(Failed));
          return true;
        }
      }
      var exchange := leg.instrument.exchange;
      if exchange != "" && exchange in env.exchangeEnabled && !env.exchangeEnabled[exchange] {
        repo.UpdateOrderLegStatus(l, To(Failed));
        return true;
      }
      return false;
    }

    method SubmitOrder(env: Env, l: nat, leg: Leg, reply: SubmitReply) returns (raised: bool)
      requires Listed(repo.Rows(), l) && leg == repo.legs[l] && Submittable(leg.status)
      modifies repo
      ensures var ev := Submit((leg.accountId, leg.userId) in env.activeAccounts,
                               PositionGone(old(repo.Rows()), old(repo.executions)[leg.executionId], leg), reply);
              raised == Escapes(leg, ev) && repo.Rows() == ApplyEvent(old(repo.Rows()), l, ev)
    {
      if (leg.accountId, leg.userId) !in env.activeAccounts {
        repo.UpdateOrderLegStatus(l, To(Failed));
        return false;
      }
      if leg.requestedPrice <= 0.0 || leg.requestedQuantity <= 0.0 {
        repo.UpdateOrderLegStatus(l, To(Failed));
        return false;
      }
      if PositionGone(repo.Rows(), repo.executions[leg.executionId], leg) {
        repo.UpdateOrderLegStatus(l, To(Filled).(filledQuantity := Some(0.0)));
        return false;
      }
      repo.UpdateOrderLegStatus(l, To(Submitting));
      match reply {
        case ClientUnavailable =>
          return true;
        case Accepted(orderId) =>
          repo.UpdateOrderLegStatus(l, To(Submitted).(orderId := if orderId == "" then None else Some(orderId)));
        case Refused =>
          var retryCount := leg.retryCount + 1;
          repo.UpdateOrderLegStatus(l, To(if retryCount >= 10 then Failed else Pending).(retryCount := Some(retryCount)));
      }
      return false;
    }

    method MonitorOrder(env: Env, l: nat, leg: Leg, poll: ExchangePoll, expired: bool) returns (raised: bool)
      requires Listed(repo.Rows(), l) && leg == repo.legs[l] && Polled(leg.status)
      modifies repo
      ensures var unit := env.market.Unit(leg.instrument);
              var ev := Poll((leg.accountId, leg.userId) in env.activeAccounts, ReplyInBase(poll, unit), expired,
                             env.market.LatestPrice(leg.instrument, leg.side), unit);
              raised == Escapes(leg, ev) && repo.Rows() == ApplyEvent(old(repo.Rows()), l, ev)
    {
      if (leg.accountId, leg.userId) !in env.activeAccounts {
        repo.UpdateOrderLegStatus(l, To(Failed));
        return false;
      }
      if poll.Unbuilt? { return true; }
      if leg.orderId == "" || poll.Unanswered? { return false; }
      var base := ReplyInBase(poll, env.market.Unit(leg.instrument)).base;
      SyncIncrementalFillProgress(l, leg, base, poll.average);
      ApplyReport(env, l, leg, poll.state, poll.filled, base, poll.average, expired);
      return false;
    }

    /** The branches of `_monitor_order` on the reported state. */
    method ApplyReport(env: Env, l: nat, leg: Leg, state: OrderState, filled: real, base: real, average: real, expired: bool)
      requires l < |repo.legs| && leg == repo.legs[l]
      modifies repo
      ensures repo.Rows() == SetLeg(old(repo.Rows()), l,
                                    AfterReport(leg, state, filled, base, average, expired,
                                                env.market.LatestPrice(leg.instrument, leg.side), env.market.Unit(leg.instrument)))
    {
      if state == FilledOrder {
        repo.UpdateOrderLegStatus(l, To(Filled).(averageFillPrice := Some(average), filledQuantity := Some(base)));
        return;
      }
      if state == PartialOrder {
        if expired {
          RetryOrder(env, l, leg, filled, base, average);
          return;
        }
        repo.UpdateOrderLegStatus(l, To(Partial).(averageFillPrice := SomeIfPositive(average), filledQuantity := SomeIfPositive(base)));
        return;
      }
      if state == OpenOrder {
        if expired { RetryOrder(env, l, leg, filled, base, average); }
        return;
      }
      if state == CancelledOrder {
        if leg.retryCount >= 10 {
          repo.UpdateOrderLegStatus(l, To(Failed));
          return;
        }
        repo.UpdateOrderLegStatus(l, To(Pending));
        return;
      }
      repo.UpdateOrderLegStatus(l, To(Failed));
    }

    method RetryOrder(env: Env, l: nat, leg: Leg, filled: real, base: real, average: real)
      requires l < |repo.legs| && leg == repo.legs[l]
      modifies repo
      ensures repo.Rows() == SetLeg(old(repo.Rows()), l,
                                    Patched(leg, RetryPatch(leg, filled, base, average, env.market.LatestPrice(leg.instrument, leg.side),
                                                            env.market.Unit(leg.instrument))))
    {
      var retryCount := leg.retryCount + 1;
      var totalFilledBase := MaxR(leg.filledQuantity, base);
      var totalFilledOrder := ToOrderQuantity(totalFilledBase, filled, env.market.Unit(leg.instrument));
      if retryCount >= 10 {
        repo.UpdateOrderLegStatus(l, LegPatch(Failed, None, None, None, Some(retryCount), SomeIfPositive(average),
                                              SomeIfPositive(totalFilledBase)));
        return;
      }
      var latestPrice := env.market.LatestPrice(leg.instrument, leg.side);
      var remaining := MaxR(0.0, leg.requestedQuantity - totalFilledOrder);
      var nextQuantity := if remaining > 0.0 then remaining else leg.requestedQuantity;
      var nextPrice := if latestPrice > 0.0 then latestPrice else leg.requestedPrice;
      repo.UpdateOrderLegStatus(l, LegPatch(Pending, SomeIfPositive(nextPrice), SomeIfPositive(nextQuantity), None, Some(retryCount),
                                            SomeIfPositive(average), SomeIfPositive(totalFilledBase)));
    }

    // ------------------------------------------------------------------ fills

    method SyncIncrementalFillProgress(l: nat, leg: Leg, cumulative: real, average: real)
      requires l < |repo.legs| && leg == repo.legs[l]
      modifies repo
      ensures var delta := MaxR(0.0, cumulative - leg.filledQuantity);
              repo.Rows() == if delta > 0.0 then BookFill(old(repo.Rows()), l, delta, average) else old(repo.Rows())
    {
      var delta := MaxR(0.0, cumulative - leg.filledQuantity);
      if delta <= 0.0 { return; }
      var value := if delta > 0.0 && average > 0.0 then delta * average else 0.0;
      assert value == Worth(delta, average);
      var fillId := repo.CreateFillRecord(FillRecord(leg.executionId, l, LegKey(leg), leg.side, average, delta));
      UpsertPositionFromFill(l, leg, delta, average, value, fillId);
    }

    method UpsertPositionFromFill(l: nat, leg: Leg, filled: real, price: real, value: real, fillId: nat)
      requires filled > 0.0 && value == Worth(filled, price)
      modifies repo
      ensures repo.Rows() == old(repo.Rows()).(positions :=
                old(repo.positions)[LegKey(leg) := Book(Lookup(old(repo.positions), LegKey(leg)), leg.positionSide,
                                                        Trade(leg.side, filled, price, leg.executionId, l, fillId))])
    {
      var stored := Lookup(repo.positions, LegKey(leg));
      var row := PositionAfterFill(stored, leg.positionSide, Trade(leg.side, filled, price, leg.executionId, l, fillId), value);
      repo.UpsertPosition(LegKey(leg), row);
    }

    /** The arithmetic of one booked fill, as the service does it, comes out as Positions.Book. */
    method PositionAfterFill(stored: Option<Position>, ps: PositionSide, t: Trade, value: real) returns (row: Position)
      requires t.quantity > 0.0 && value == Worth(t.quantity, t.price)
      ensures row == Book(stored, ps, t)
    {
      var current := OpenRow(stored);
      var quantity := if current.Some? then current.value.quantity else 0.0;
      var average := if current.Some? then current.value.avgEntryPrice else 0.0;
      var realized := if current.Some? then current.value.realizedPnl else 0.0;
      var openedBy := if current.Some? then current.value.openedBy else t.executionId;
      var isBuy := t.side == Buy;
      var closing, opening, newQuantity := 0.0, 0.0, 0.0;
      if ps == Long {
        if isBuy {
          opening, newQuantity := t.quantity, quantity + t.quantity;
        } else {
          closing, newQuantity := MinR(quantity, t.quantity), MaxR(0.0, quantity - t.quantity);
        }
      } else {
        if isBuy {
          closing, newQuantity := MinR(quantity, t.quantity), MaxR(0.0, quantity - t.quantity);
        } else {
          opening, newQuantity := t.quantity, quantity + t.quantity;
        }
      }
      var newAverage := AveragePrice(quantity, average, opening, t.price, newQuantity);
      var mark := if t.price > 0.0 then t.price else newAverage;
      var marketValue := MarketValue(newQuantity, mark);
      var realizedDelta := 0.0;
      if quantity > 0.0 && closing > 0.0 { realizedDelta := ClosedProfit(ps, isBuy, average, t.price, closing); }
      var unrealized := UnrealizedProfit(ps, newQuantity, newAverage, mark);
      row := Position(newQuantity, newAverage, mark, if marketValue > 0.0 then marketValue else value, realized + realizedDelta,
                      unrealized, openedBy, t.legId, t.fillId, newQuantity > 0.0);
    }

    method AveragePrice(quantity: real, average: real, opening: real, price: real, newQuantity: real) returns (result: real)
      requires opening > 0.0 ==> newQuantity == quantity + opening
      ensures result == if newQuantity <= 0.0 then 0.0 else if opening > 0.0 then Blend(quantity, average, opening, price) else average
    {
      result := 0.0;
      if newQuantity > 0.0 && opening > 0.0 {
        result := (quantity * average + opening * price) / newQuantity;
      } else if newQuantity > 0.0 {
        result := average;
      }
    }

    method MarketValue(quantity: real, mark: real) returns (result: real)
      ensures result == Worth(quantity, mark)
    {
      result := if quantity > 0.0 && mark > 0.0 then quantity * mark else 0.0;
    }

    method ClosedProfit(ps: PositionSide, isBuy: bool, average: real, price: real, closing: real) returns (result: real)
      ensures result == if ps == Net || (ps == Long) == isBuy then 0.0 else Gain(ps, average, price, closing)
    {
      result := 0.0;
      if ps == Long && !isBuy {
        result := (price - average) * closing;
      } else if ps == Short && isBuy {
        result := (average - price) * closing;
      }
    }

    method UnrealizedProfit(ps: PositionSide, quantity: real, average: real, mark: real) returns (result: real)
      ensures result == OpenProfit(ps, quantity, average, mark)
    {
      result := 0.0;
      if quantity > 0.0 && average > 0.0 && mark > 0.0 {
        if ps == Long {
          result := (mark - average) * quantity;
        } else {
          result := (average - mark) * quantity;
        }
      }
    }

    // ------------------------------------------------------------ reconciling

    method ReconcileExecution(m: Market, e: nat)
      requires Wired()
      modifies repo
      ensures repo.Rows() == Reconcile(old(repo.Rows()), m, e)
    {
      if e >= |repo.executions| { return; }
      ListLegsLists(repo.legs, e);
      ReconcileListed(m, e, ListLegs(repo.legs, e));
    }

    /** Whatever the order in which the legs are listed, the same rows are written. */
    method ReconcileListed(m: Market, e: nat, rows: seq<LegRow>)
      requires Wired() && IsExecution(repo.Rows(), e) && IsListing(rows, repo.legs, e)
      modifies repo
      ensures repo.Rows() == Reconcile(old(repo.Rows()), m, e)
    {
      var row := repo.executions[e];
      ListedStatuses(rows, repo.Rows(), e);
      if rows == [] { return; }
      var verdict := JudgeInOrder(set i | 0 <= i < |rows| :: rows[i].leg.status);
      match verdict {
        case InProgress =>
          UpdateExecutionStatusIfChanged(e, row, if row.action == Open then Opening else Closing);
        case SomeLegFailed =>
          UpdateExecutionStatusIfChanged(e, row, Broken);
          HandleFailedExecution(m, e, row, rows);
        case AllFilled =>
          UpdateExecutionStatusIfChanged(e, row, if row.action == Open then Opened else Closed);
          if row.action == Close { WriteSourceStatus(e, row, Closed); }
      }
    }

    /** The tests of `reconcile_execution` in their order. */
    method JudgeInOrder(statuses: set<LegStatus>) returns (verdict: Verdict)
      requires statuses != {}
      ensures verdict == Judge(statuses)
    {
      if statuses <= {Pending, Created, Submitting, Submitted, Partial} { return InProgress; }
      if LegStatus.Failed in statuses { return SomeLegFailed; }
      if statuses == {Filled} { return AllFilled; }
      if Cancelled in statuses && statuses <= {Cancelled, Filled} { return SomeLegFailed; }
      return InProgress;
    }

    method UpdateExecutionStatusIfChanged(e: nat, row: Execution, status: ExecutionStatus)
      requires IsExecution(repo.Rows(), e) && row == repo.executions[e]
      modifies repo
      ensures repo.Rows() == SetStatus(old(repo.Rows()), e, status)
    {
      if row.status == status {
        assert repo.executions[e := row.(status := status)] == repo.executions;
        return;
      }
      repo.UpdateExecutionStatus(e, status);
    }

    /** `_mark_source_execution_closed`, `_restore_source_execution_to_open` and `_to_closing`. */
    method WriteSourceStatus(e: nat, row: Execution, status: ExecutionStatus)
      requires IsExecution(repo.Rows(), e) && row.source == repo.executions[e].source
      modifies repo
      ensures repo.Rows() == RestoreSource(old(repo.Rows()), e, status)
    {
      if row.source.None? || row.source.value >= |repo.executions| { return; }
      if repo.executions[row.source.value].status == Closed { return; }
      repo.UpdateExecutionStatus(row.source.value, status);
    }

    /** `row` is the execution as it was listed; since then its status has been set to failed. */
    method HandleFailedExecution(m: Market, e: nat, row: Execution, rows: seq<LegRow>)
      requires Wired() && IsExecution(repo.Rows(), e) && IsListing(rows, repo.legs, e)
      requires row.(status := Broken) == repo.executions[e]
      modifies repo
      ensures repo.Rows() == HandleFailed(old(repo.Rows()), m, e)
    {
      ghost var before := repo.Rows();
      FinalizeFailedExecutionActiveLegs(e, rows);
      var spent := AnySpent(before, e, rows);
      if row.action == Close {
        if spent {
          MarkCooldown(row);
          WriteSourceStatus(e, row, Opened);
        } else {
          WriteSourceStatus(e, row, Closing);
        }
        return;
      }
      var exposed := HasExposedPosition(before, e, rows);
      if exposed {
        var scheduled := ScheduleForceClose(m, e, row);
        if scheduled { return; }
      }
      if spent { MarkCooldown(row); }
    }

    /** Order-leg rows carry no action, so none of them is skipped as an idle close leg. */
    method FinalizeFailedExecutionActiveLegs(e: nat, rows: seq<LegRow>)
      requires IsListing(rows, repo.legs, e)
      modifies repo
      ensures repo.Rows() == Abandoned(old(repo.Rows()), e)
    {
      ghost var before := repo.legs;
      for i := 0 to |rows|
        invariant repo.Rows() == old(repo.Rows()).(legs := repo.legs) && |repo.legs| == |before|
        invariant forall j :: 0 <= j < |rows| ==> repo.legs[rows[j].id] == if j < i then Next(rows[j].leg, Abandon) else rows[j].leg
        invariant forall l :: 0 <= l < |before| && before[l].executionId != e ==> repo.legs[l] == before[l]
      {
        assert RowOf(rows[i], before, e);
        var row := rows[i];
        if row.leg.status in {Pending, Created, Submitting, Submitted, Partial} && row.leg.orderId == "" {
          repo.UpdateOrderLegStatus(row.id, To(Failed));
        }
      }
      AllAbandoned(old(repo.Rows()), e, rows, repo.legs);
    }

    method AnySpent(ghost before: Store, e: nat, rows: seq<LegRow>) returns (spent: bool)
      requires IsListing(rows, before.legs, e)
      ensures spent == AnyLegSpent(before, e)
    {
      for i := 0 to |rows|
        invariant forall j :: 0 <= j < i ==> rows[j].leg.retryCount < MAX_RETRIES
      {
        assert RowOf(rows[i], before.legs, e);
        if rows[i].leg.retryCount >= 10 { return true; }
      }
      return false;
    }

    method HasExposedPosition(ghost before: Store, e: nat, rows: seq<LegRow>) returns (exposed: bool)
      requires IsListing(rows, before.legs, e) && before.positions == repo.positions
      ensures exposed == AnyLegExposed(before, e)
    {
      for i := 0 to |rows|
        invariant forall j :: 0 <= j < i ==> !LegExposed(before, rows[j].leg)
      {
        assert RowOf(rows[i], before.legs, e);
        if rows[i].leg.filledQuantity > 0.0 { return true; }
        var quantity := PositionQuantity(repo.Rows(), LegKey(rows[i].leg));
        if quantity.Some? && quantity.value > 0.0 { return true; }
      }
      return false;
    }

    method MarkCooldown(row: Execution)
      modifies repo
      ensures repo.Rows() == Cooldown(old(repo.Rows()), row)
    {
      var pairKey := Text.Strip(row.pairKey);
      if row.userId <= 0 || pairKey == "" { return; }
      repo.MarkPairCooldown(row.userId, pairKey);
    }

    method ScheduleForceClose(m: Market, e: nat, row: Execution) returns (scheduled: bool)
      requires Wired() && IsExecution(repo.Rows(), e) && row.(status := Broken) == repo.executions[e]
      modifies repo
      ensures (repo.Rows(), scheduled) == ForceClose(old(repo.Rows()), m, e)
    {
      if row.userId <= 0 || row.ruleId <= 0 || row.pairKey == "" { return false; }
      if HasLiveClose(repo.Rows(), row.userId, row.ruleId, row.pairKey) {
        repo.UpdateExecutionStatus(e, Closing);
        return true;
      }
      var created := planner.CreateCloseExecution(m, e);
      if created.None? {
        MarkCooldown(row);
        return false;
      }
      repo.UpdateExecutionStatus(e, Closing);
      return true;
    }
  }

  lemma AllAbandoned(s: Store, e: nat, rows: seq<LegRow>, legs: seq<Leg>)
    requires IsListing(rows, s.legs, e) && |legs| == |s.legs|
    requires forall i :: 0 <= i < |rows| ==> legs[rows[i].id] == Next(rows[i].leg, Abandon)
    requires forall l :: 0 <= l < |legs| && s.legs[l].executionId != e ==> legs[l] == s.legs[l]
    ensures legs == Abandoned(s, e).legs
  {
    forall l | 0 <= l < |legs| ensures legs[l] == Abandoned(s, e).legs[l] {
      if s.legs[l].executionId == e {
        var i :| 0 <= i < |rows| && rows[i].id == l;
        assert RowOf(rows[i], s.legs, e);
      }
    }
  }

  /** A listing in any order has the statuses of the stored legs. */
  lemma ListedStatuses(rows: seq<LegRow>, s: Store, e: nat)
    requires IsListing(rows, s.legs, e)
    ensures (set i | 0 <= i < |rows| :: rows[i].leg.status) == LegStatuses(s, e)
    ensures rows == [] <==> LegStatuses(s, e) == {}
  {
    var listed := set i | 0 <= i < |rows| :: rows[i].leg.status;
    forall i | 0 <= i < |rows| ensures rows[i].leg.status in LegStatuses(s, e) { assert RowOf(rows[i], s.legs, e); }
    forall l | 0 <= l < |s.legs| && s.legs[l].executionId == e ensures s.legs[l].status in listed {
      var i :| 0 <= i < |rows| && rows[i].id == l;
      assert RowOf(rows[i], s.legs, e);
    }
    if rows != [] { assert rows[0].leg.status in listed; }
  }
}

/** The three ways an opened pair gets closed without a failed leg: the position scan (`arbitrage_position_monitor_service`),
    switching a rule off (`strategy_rule_service`) and a request by hand (`strategy_runtime_service`). */
module CloseTriggers {
  import opened Prelude
  import opened Positions
  import opened Quantities
  import opened Legs
  import opened Executions
  import opened ExecutionRepository
  import opened ExecutionPlanService

  /** An execution row as a query returns it. */
  datatype ExecutionRow = ExecutionRow(id: nat, row: Execution)

  /** `list_active_open_executions`, oldest first. */
  function ListActiveOpen(executions: seq<Execution>): seq<ExecutionRow> {
    if executions == [] then []
    else
      var n := |executions| - 1;
      ListActiveOpen(executions[..n])
      + if executions[n].action == Open && Live(executions[n].status) then [ExecutionRow(n, executions[n])] else []
  }

  /** The ids differ and the rows are still as they were read. */
  ghost predicate Current(rows: seq<ExecutionRow>, executions: seq<Execution>) {
    && (forall i :: 0 <= i < |rows| ==> rows[i].id < |executions| && rows[i].row == executions[rows[i].id])
    && (forall i, j :: 0 <= i < j < |rows| ==> rows[i].id != rows[j].id)
  }

  /** Every active opened execution is listed once, oldest first, and nothing else is. */
  lemma ListActiveOpenLists(executions: seq<Execution>)
    ensures Current(ListActiveOpen(executions), executions)
    ensures forall i :: 0 <= i < |ListActiveOpen(executions)| ==> IsActiveOpen(ListActiveOpen(executions)[i].row)
    ensures forall i, j :: 0 <= i < j < |ListActiveOpen(executions)| ==> ListActiveOpen(executions)[i].id < ListActiveOpen(executions)[j].id
    ensures forall e :: 0 <= e < |executions| && IsActiveOpen(executions[e]) ==> IsListed(ListActiveOpen(executions), e)
  {
    ListedAreActive(executions);
    forall e | 0 <= e < |executions| && IsActiveOpen(executions[e]) ensures IsListed(ListActiveOpen(executions), e) {
      ActiveIsListed(executions, e);
    }
  }

  lemma {:induction false} ListedAreActive(executions: seq<Execution>)
    ensures Current(ListActiveOpen(executions), executions)
    ensures forall i :: 0 <= i < |ListActiveOpen(executions)| ==> IsActiveOpen(ListActiveOpen(executions)[i].row)
    ensures forall i, j :: 0 <= i < j < |ListActiveOpen(executions)| ==> ListActiveOpen(executions)[i].id < ListActiveOpen(executions)[j].id
  {
    if executions != [] {
      var n := |executions| - 1;
      var rows, earlier := ListActiveOpen(executions), ListActiveOpen(executions[..n]);
      ListedAreActive(executions[..n]);
      forall i | 0 <= i < |rows|
        ensures rows[i].id < |executions| && rows[i].row == executions[rows[i].id] && IsActiveOpen(rows[i].row)
        ensures i < |earlier| ==> rows[i].id < n
      {
        if i < |earlier| { assert rows[i] == earlier[i]; }
      }
      forall i, j | 0 <= i < j < |rows| ensures rows[i].id < rows[j].id {
        if j < |earlier| { assert rows[i] == earlier[i] && rows[j] == earlier[j]; }
      }
    }
  }

  lemma {:induction false} ActiveIsListed(executions: seq<Execution>, e: nat)
    requires e < |executions| && IsActiveOpen(executions[e])
    ensures IsListed(ListActiveOpen(executions), e)
  {
    var n := |executions| - 1;
    var rows, earlier := ListActiveOpen(executions), ListActiveOpen(executions[..n]);
    if e < n {
      ActiveIsListed(executions[..n], e);
      var i :| 0 <= i < |earlier| && earlier[i].id == e;
      assert rows[i].id == e;
    } else {
      assert rows[|earlier|].id == e;
    }
  }

  predicate IsActiveOpen(x: Execution) { x.action == Open && Live(x.status) }

  ghost predicate IsListed(rows: seq<ExecutionRow>, e: nat) {
    exists i :: 0 <= i < |rows| && rows[i].id == e
  }

  // ------------------------------------------------------------------ scans

  /** One scan after another row: `wanted` holds the executions whose strategy gives a reason to close. */
  function InspectAll(s: Store, m: Market, rows: seq<ExecutionRow>, wanted: set<nat>): Store {
    if rows == [] then s
    else
      var last := rows[|rows| - 1].id;
      InspectOpen(InspectAll(s, m, rows[..|rows| - 1], wanted), m, last, last in wanted)
  }

  function CloseAllForRule(s: Store, m: Market, userId: int, ruleId: int, rows: seq<ExecutionRow>): Store {
    if rows == [] then s
    else CloseForRule(CloseAllForRule(s, m, userId, ruleId, rows[..|rows| - 1]), m, userId, ruleId, rows[|rows| - 1].id)
  }

  /** What the inspections of `done` rows made of `s`; `next` is that store after one row more. */
  ghost predicate Inspected(s: Store, m: Market, rows: seq<ExecutionRow>, wanted: set<nat>, done: nat, t: Store)
    requires done <= |rows|
  {
    t == InspectAll(s, m, rows[..done], wanted)
  }

  lemma InspectedNext(s: Store, m: Market, rows: seq<ExecutionRow>, wanted: set<nat>, done: nat, t: Store, next: Store)
    requires done < |rows| && Inspected(s, m, rows, wanted, done, t)
    requires next == InspectOpen(t, m, rows[done].id, rows[done].id in wanted)
    ensures Inspected(s, m, rows, wanted, done + 1, next)
  {
    assert rows[..done + 1][..done] == rows[..done];
  }

  class PositionMonitor {
    const repo: Repository
    const planner: PlanService

    constructor (planner: PlanService)
      ensures this.planner == planner && repo == planner.repo
    {
      this.planner, repo := planner, planner.repo;
    }

    /** `_inspect_execution_positions`, as far as the scan uses it. */
    method InspectPositions(e: nat, row: Execution) returns (hasLive: bool, isUnhedged: bool)
      requires IsExecution(repo.Rows(), e) && row == repo.executions[e] && planner.repo == repo
      ensures var held := ExposureOf(repo.Rows(), e);
              hasLive == (held.left > 0.0 || held.right > 0.0) && isUnhedged == ((held.left > 0.0) != (held.right > 0.0))
    {
      var left := planner.SourceLeg(e, Left);
      var right := planner.SourceLeg(e, Right);
      if left.None? || right.None? { return false, false; }
      var leftQuantity := PositionQuantity(repo.Rows(), PositionKey(left.value.accountId, row.left.marketType, row.left.symbol, left.value.positionSide)).GetOr(0.0);
      var rightQuantity := PositionQuantity(repo.Rows(), PositionKey(right.value.accountId, row.right.marketType, row.right.symbol, right.value.positionSide)).GetOr(0.0);
      var leftHas, rightHas := leftQuantity > 0.0, rightQuantity > 0.0;
      return leftHas || rightHas, leftHas != rightHas;
    }

    /** `_scan_open_executions`: the rows are read once, before the loop, and are still current when their turn comes. */
    method ScanOpenExecutions(m: Market, wanted: set<nat>, limit: nat) returns (created: nat)
      requires planner.repo == repo
      modifies repo
      ensures var listed := ListActiveOpen(old(repo.executions));
              repo.Rows() == InspectAll(old(repo.Rows()), m, if limit < |listed| then listed[..limit] else listed, wanted)
      ensures |repo.executions| == |old(repo.executions)| + created
    {
      ListActiveOpenLists(repo.executions);
      var rows := ListActiveOpen(repo.executions);
      if limit < |rows| { rows := rows[..limit]; }
      created := 0;
      for i := 0 to |rows|
        invariant Inspected(old(repo.Rows()), m, rows, wanted, i, repo.Rows())
        invariant |repo.executions| == |old(repo.executions)| + created
        invariant forall j :: i <= j < |rows| ==> rows[j].id < |repo.executions| && rows[j].row == repo.executions[rows[j].id]
      {
        ghost var before := repo.Rows();
        var closing := InspectRow(m, rows[i].id, rows[i].row, rows[i].id in wanted);
        InspectedNext(old(repo.Rows()), m, rows, wanted, i, before, repo.Rows());
        if closing { created := created + 1; }
      }
      assert rows[..|rows|] == rows;
    }

    /** The body of the scan's loop. */
    method InspectRow(m: Market, e: nat, row: Execution, wantsClose: bool) returns (closing: bool)
      requires planner.repo == repo && IsExecution(repo.Rows(), e) && row == repo.executions[e] && row.action == Open
      modifies repo
      ensures repo.Rows() == InspectOpen(old(repo.Rows()), m, e, wantsClose)
      ensures |repo.executions| == |old(repo.executions)| + if closing then 1 else 0
      ensures forall i :: 0 <= i < |old(repo.executions)| && i != e ==> repo.executions[i] == old(repo.executions)[i]
    {
      if row.status != Opened { return false; }
      if HasLiveClose(repo.Rows(), row.userId, row.ruleId, row.pairKey) { return false; }
      var hasLive, isUnhedged := InspectPositions(e, row);
      if !hasLive {
        repo.UpdateExecutionStatus(e, Closed);
        return false;
      }
      if isUnhedged {
        var forced := planner.CreateCloseExecution(m, e);
        if forced.None? { return false; }
        repo.UpdateExecutionStatus(e, Closing);
        return true;
      }
      if HasLiveClose(repo.Rows(), row.userId, row.ruleId, row.pairKey) || !wantsClose { return false; }
      var created := planner.CreateCloseExecution(m, e);
      if created.None? { return false; }
      repo.UpdateExecutionStatus(e, Closing);
      return true;
    }
  }

  class RuleService {
    const repo: Repository
    const planner: PlanService

    constructor (planner: PlanService)
      ensures this.planner == planner && repo == planner.repo
    {
      this.planner, repo := planner, planner.repo;
    }

    /** `_schedule_close_for_rule_open_positions`: `rows` are the user's active opened executions, most recently changed
        first. */
    method ScheduleCloseForRule(m: Market, userId: int, ruleId: int, rows: seq<ExecutionRow>)
      requires planner.repo == repo && Current(rows, repo.executions)
      requires forall i :: 0 <= i < |rows| ==> rows[i].row.userId == userId
      modifies repo
      ensures repo.Rows() == CloseAllForRule(old(repo.Rows()), m, userId, ruleId, rows)
    {
      for i := 0 to |rows|
        invariant repo.Rows() == CloseAllForRule(old(repo.Rows()), m, userId, ruleId, rows[..i])
        invariant forall j :: i <= j < |rows| ==> rows[j].id < |repo.executions| && rows[j].row == repo.executions[rows[j].id]
      {
        assert rows[..i + 1][..i] == rows[..i];
        CloseRow(m, userId, ruleId, rows[i].id, rows[i].row);
      }
      assert rows[..|rows|] == rows;
    }

    method CloseRow(m: Market, userId: int, ruleId: int, e: nat, row: Execution)
      requires planner.repo == repo && IsExecution(repo.Rows(), e) && row == repo.executions[e] && row.userId == userId
      modifies repo
      ensures repo.Rows() == CloseForRule(old(repo.Rows()), m, userId, ruleId, e)
      ensures |repo.executions| >= |old(repo.executions)|
      ensures forall i :: 0 <= i < |old(repo.executions)| && i != e ==> repo.executions[i] == old(repo.executions)[i]
    {
      if row.ruleId != ruleId || row.action != Open || row.status != Opened { return; }
      if HasLiveClose(repo.Rows(), userId, ruleId, row.pairKey) { return; }
      var created := planner.CreateCloseExecution(m, e);
      if created.None? { return; }
      repo.UpdateExecutionStatus(e, Closing);
    }
  }

  class RuntimeService {
    const repo: Repository
    const planner: PlanService

    constructor (planner: PlanService)
      ensures this.planner == planner && repo == planner.repo
    {
      this.planner, repo := planner, planner.repo;
    }

    /** `request_close_execution`; its errors are the answer Refuse. */
    method RequestCloseExecution(m: Market, userId: int, e: nat) returns (answer: CloseRequest)
      requires planner.repo == repo
      modifies repo
      ensures (repo.Rows(), answer) == RequestClose(old(repo.Rows()), m, userId, e)
    {
      if e >= |repo.executions| || repo.executions[e].userId != userId { return Refuse; }
      var row := repo.executions[e];
      if row.action != Open { return Refuse; }
      if row.status == Closed { return Refuse; }
      var existing := LatestClose(repo.executions, e);
      if existing.Some? && repo.executions[existing.value].status in {ToStart, Made, Processing, Opening, Opened, Closing} {
        if row.status != Closing {
          repo.UpdateExecutionStatus(e, Closing);
        } else {
          assert repo.executions[e := row.(status := Closing)] == repo.executions;
        }
        return AlreadyPending(existing.value);
      }
      var created := planner.CreateCloseExecution(m, e);
      if created.None? { return Refuse; }
      repo.UpdateExecutionStatus(e, Closing);
      return Started(created.value);
    }
  }
}

/** The stored rows as one object whose methods write them (`arbitrage_execution_repository`). */
module ExecutionRepository {
  import opened Prelude
  import opened Positions
  import opened Legs
  import opened Executions

  class Repository {
    var executions: seq<Execution>
    var legs: seq<Leg>
    var fills: seq<FillRecord>
    var positions: map<PositionKey, Position>
    var cooldowns: set<(int, string)>

    constructor ()
      ensures Rows() == Store([], [], [], map[], {})
    {
      executions, legs, fills, positions, cooldowns := [], [], [], map[], {};
    }

    function Rows(): Store
      reads this
    {
      Store(executions, legs, fills, positions, cooldowns)
    }

    method CreateExecution(x: Execution) returns (id: nat)
      modifies this
      ensures id == |old(executions)|
      ensures Rows() == old(Rows()).(executions := old(executions) + [x])
    {
      id := |executions|;
      executions := executions + [x];
    }

    method CreateOrderLeg(leg: Leg) returns (id: nat)
      modifies this
      ensures id == |old(legs)|
      ensures Rows() == old(Rows()).(legs := old(legs) + [leg])
    {
      id := |legs|;
      legs := legs + [leg];
    }

    method CreateFillRecord(record: FillRecord) returns (id: nat)
      modifies this
      ensures id == |old(fills)|
      ensures Rows() == old(Rows()).(fills := old(fills) + [record])
    {
      id := |fills|;
      fills := fills + [record];
    }

    /** An id without a row changes nothing. */
    method UpdateOrderLegStatus(id: nat, patch: LegPatch)
      modifies this
      ensures Rows() == if id < |old(legs)| then SetLeg(old(Rows()), id, Patched(old(legs)[id], patch)) else old(Rows())
    {
      if id < |legs| { legs := legs[id := Patched(legs[id], patch)]; }
    }

    method UpdateExecutionStatus(id: nat, status: ExecutionStatus)
      modifies this
      ensures Rows() == if id < |old(executions)| then SetStatus(old(Rows()), id, status) else old(Rows())
    {
      if id < |executions| { executions := executions[id := executions[id].(status := status)]; }
    }

    method UpsertPosition(key: PositionKey, row: Position)
      modifies this
      ensures Rows() == old(Rows()).(positions := old(positions)[key := row])
    {
      positions := positions[key := row];
    }

    /** `mark_pair_cooldown`. */
    method MarkPairCooldown(userId: int, pairKey: string)
      modifies this
      ensures Rows() == old(Rows()).(cooldowns := old(cooldowns) + {(userId, pairKey)})
    {
      cooldowns := cooldowns + {(userId, pairKey)};
    }
  }
}

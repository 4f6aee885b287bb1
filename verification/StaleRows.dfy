/** The order worker reads a batch of rows and then processes them one by one (`arbitrage_execution_monitor_service`); what
    a row that is out of date does to the store. */
module StaleRows {
  import opened Prelude
  import opened Positions
  import opened Quantities
  import opened Legs
  import opened Executions
  import opened SystemRuns

  /** Submitting leg `l` by a row that was read earlier: decisions go by the row, writes go to the stored leg. */
  function SubmitByRow(s: Store, m: Market, l: nat, row: Leg, accountActive: bool, positionGone: bool, reply: SubmitReply): Store
    requires l < |s.legs|
  {
    var s1 := SetLeg(s, l, Patched(s.legs[l], SubmitPatch(row, accountActive, positionGone, reply)));
    if Escapes(row, Submit(accountActive, positionGone, reply)) then s1 else Reconcile(s1, m, row.executionId)
  }

  /** By a row that is up to date it is what processing the leg does. */
  lemma CurrentRowIsProcessed(s: Store, env: Env, l: nat, ex: Exchange)
    requires Listed(s, l) && Submittable(s.legs[l].status) && !OpeningBlocked(env, s.executions[s.legs[l].executionId], s.legs[l])
    ensures var leg := s.legs[l];
            ProcessLeg(s, env, l, ex)
            == SubmitByRow(s, env.market, l, leg, (leg.accountId, leg.userId) in env.activeAccounts,
                           PositionGone(s, s.executions[leg.executionId], leg), ex.submit)
  {
  }

  /** Leg `l` of a close was abandoned when another leg of it failed; `row` is how it was read before that. */
  ghost predicate AbandonedSince(s: Store, l: nat, row: Leg) {
    && l < |s.legs| && Submittable(row.status) && row.orderId == "" && s.legs[l] == Next(row, Abandon)
    && var c := row.executionId;
       && IsExecution(s, c) && s.executions[c].action == Close && s.executions[c].status == Broken
       && exists k :: 0 <= k < |s.legs| && k != l && s.legs[k].executionId == c && s.legs[k].status == LegStatus.Failed
  }

  /** What the stale row leaves of the leg and its close: the close stays failed, and the leg is active under it, with an
      order on the exchange or about to have one, if and only if the row can be submitted and the order is accepted
      under an id or the client cannot be built. */
  lemma LegRevivesUnderDeadClose(s: Store, m: Market, l: nat, row: Leg, accountActive: bool, positionGone: bool, reply: SubmitReply)
    requires Linked(s) && AbandonedSince(s, l, row)
    ensures var t := SubmitByRow(s, m, l, row, accountActive, positionGone, reply);
            && IsExecution(t, row.executionId) && t.executions[row.executionId].status == Broken && l < |t.legs|
            && (Active(t.legs[l].status)
                <==> Attempts(row, accountActive, positionGone) && (reply.ClientUnavailable? || (reply.Accepted? && reply.orderId != "")))
            && (Active(t.legs[l].status) ==> t.legs[l] == Patched(s.legs[l], SubmitPatch(row, accountActive, positionGone, reply)))
            && SameCloses(s, t)
  {
    var c := row.executionId;
    var s1 := SetLeg(s, l, Patched(s.legs[l], SubmitPatch(row, accountActive, positionGone, reply)));
    if !Escapes(row, Submit(accountActive, positionGone, reply)) {
      var k :| 0 <= k < |s.legs| && k != l && s.legs[k].executionId == c && s.legs[k].status == LegStatus.Failed;
      assert s1.legs[k] == s.legs[k];
      assert s1.legs[k].status in LegStatuses(s1, c);
      assert SetStatus(s1, c, Broken).executions == s1.executions;
      FailedCloseLeaves(s1, m, c);
    }
  }

  /** The same executions, and the same closes among them in the same status. */
  ghost predicate SameCloses(s: Store, t: Store) {
    && |s.executions| == |t.executions|
    && (forall i :: 0 <= i < |s.executions| ==> SameRow(s.executions[i], t.executions[i]))
    && (forall i :: 0 <= i < |s.executions| && s.executions[i].action == Close ==> t.executions[i] == s.executions[i])
  }

  lemma FailedCloseLeaves(s: Store, m: Market, c: nat)
    requires IsExecution(s, c) && s.executions[c].action == Close && LinkedRow(s.executions, c)
    ensures var t := HandleFailed(s, m, c);
            && SameCloses(s, t) && t.legs == Abandoned(s, c).legs
  {
  }

  /** So the source can be closed again while that order is outstanding: once the dead close was its newest, another close
      by hand is started exactly when it is not closed and something is left to close. */
  lemma SourceCanBeClosedAgain(s: Store, m: Market, l: nat, row: Leg, reply: SubmitReply, later: Market, user: int, e: nat)
    requires Linked(s) && AbandonedSince(s, l, row) && Attempts(row, true, false) && reply.Accepted? && reply.orderId != ""
    requires LatestClose(s.executions, e) == Some(row.executionId) && IsExecution(s, e) && s.executions[e].userId == user
    ensures var t := SubmitByRow(s, m, l, row, true, false, reply);
            && IsExecution(t, e) && l < |t.legs| && t.legs[l].status == Submitted && t.legs[l].orderId == reply.orderId
            && (RequestClose(t, later, user, e).1.Started?
                <==> t.executions[e].action == Open && t.executions[e].status != Closed && CreateClose(t, later, e).Some?)
  {
    LegRevivesUnderDeadClose(s, m, l, row, true, false, reply);
    StartsAgainIff(s, SubmitByRow(s, m, l, row, true, false, reply), later, user, e, row.executionId);
  }

  lemma StartsAgainIff(s: Store, t: Store, m: Market, user: int, e: nat, c: nat)
    requires SameCloses(s, t) && LatestClose(s.executions, e) == Some(c) && s.executions[c].status == Broken
    requires IsExecution(s, e) && s.executions[e].userId == user
    ensures RequestClose(t, m, user, e).1.Started?
            <==> t.executions[e].action == Open && t.executions[e].status != Closed && CreateClose(t, m, e).Some?
  {
    SameLatest(s.executions, t.executions, e);
    assert SameRow(s.executions[e], t.executions[e]);
  }

  lemma {:induction false} SameLatest(executions: seq<Execution>, others: seq<Execution>, e: nat)
    requires |executions| == |others| && forall i :: 0 <= i < |executions| ==> SameRow(executions[i], others[i])
    ensures LatestClose(executions, e) == LatestClose(others, e)
  {
    if executions != [] {
      var n := |executions| - 1;
      assert SameRow(executions[n], others[n]);
      SameLatest(executions[..n], others[..n], e);
    }
  }

  /** And a scan does not wait for it: the pair is as busy as it was before. */
  lemma PairStaysIdle(s: Store, t: Store, userId: int, ruleId: int, pairKey: string)
    requires SameCloses(s, t)
    ensures HasLiveClose(t, userId, ruleId, pairKey) <==> HasLiveClose(s, userId, ruleId, pairKey)
  {
    forall i | 0 <= i < |s.executions|
      ensures IsLiveCloseOf(t.executions[i], userId, ruleId, pairKey) == IsLiveCloseOf(s.executions[i], userId, ruleId, pairKey)
    {
      assert SameRow(s.executions[i], t.executions[i]);
    }
  }
}

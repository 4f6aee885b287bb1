/** What processing one order leg comes to in the tables: which event it is, what it books, and what follows. */
module StepEffects {
  import opened Prelude
  import opened Positions
  import opened Quantities
  import opened Legs
  import opened LegFills
  import opened Executions
  import opened SystemRuns
  import opened LegPairing
  import opened CloseEffects
  import opened ReconcileEffects

  /** An opening may not go on: its rule is off for the user, or the exchange is known and switched off. */
  predicate IsSwitchedOff(env: Env, x: Execution, leg: Leg) {
    && x.action == Open
    && (|| (x.ruleId > 0 && leg.userId > 0 && (x.ruleId, leg.userId) !in env.enabledRules)
        || (leg.instrument.exchange != "" && leg.instrument.exchange in env.exchangeEnabled && !env.exchangeEnabled[leg.instrument.exchange]))
  }

  /** What the exchange's answer to a poll says in base units, `c` to an order unit. */
  predicate Says(answer: ExchangePoll, c: real, reply: PollReply) {
    match answer
    case Unbuilt => reply == NoClient
    case Unanswered => reply == NoAnswer
    case Answer(state, filled, average) => reply == Report(state, filled, InBase(filled, c), average)
  }

  /** The event that processing the leg is. */
  predicate IsEvent(s: Store, env: Env, leg: Leg, x: Execution, ex: Exchange, ev: LegEvent) {
    var hasAccount := (leg.accountId, leg.userId) in env.activeAccounts;
    if IsSwitchedOff(env, x, leg) then ev == Block
    else if Submittable(leg.status) then ev == Submit(hasAccount, x.action == Close && !Holds(s, leg), ex.submit)
    else
      && ev.Poll? && ev.accountActive == hasAccount && ev.expired == ex.expired
      && TradesIn(env.market, leg.instrument, ev.unit) && Says(ex.poll, ev.unit, ev.pollReply)
      && PricedAt(env.market, leg.instrument, leg.side, ev.latestPrice)
  }

  /** What is booked: the part of a report beyond the stored fill, as one record at the reported price and in the row that the
      leg trades. */
  predicate IsBooked(s: Store, l: nat, ev: LegEvent, t: Store)
    requires l < |s.legs|
  {
    var leg := s.legs[l];
    if Reports(leg, ev) && ev.pollReply.base > leg.filledQuantity then
      var added, price := ev.pollReply.base - leg.filledQuantity, ev.pollReply.average;
      && t.fills == s.fills + [FillRecord(leg.executionId, l, LegKey(leg), leg.side, price, added)]
      && t.positions == s.positions[LegKey(leg) := Book(Lookup(s.positions, LegKey(leg)), leg.positionSide,
                                                        Trade(leg.side, added, price, leg.executionId, l, |s.fills|))]
    else t.fills == s.fills && t.positions == s.positions
  }

  /** The step ends without reconciling where a client could not be built. */
  predicate HasNoClient(leg: Leg, ev: LegEvent) {
    || (ev.Submit? && ev.accountActive && leg.requestedPrice > 0.0 && leg.requestedQuantity > 0.0 && !ev.positionGone
        && ev.submitReply.ClientUnavailable?)
    || (ev.Poll? && ev.accountActive && ev.pollReply.NoClient?)
  }

  lemma EventIs(s: Store, env: Env, l: nat, ex: Exchange)
    requires Grounded(s) && Listed(s, l)
    ensures var leg := s.legs[l];
            IsEvent(s, env, leg, s.executions[leg.executionId], ex, EventOf(s, env, l, ex))
  {
    var leg := s.legs[l];
    HeldIsQuantity(s, LegKey(leg));
    var c, _, _, _ := PlanIsLargestOrder(env.market, leg.instrument, leg.side, 0.0, None);
    assert env.market.ToBase(leg.instrument, 1.0) == InBase(1.0, c);
    assert c == env.market.Unit(leg.instrument);
  }

  lemma EventBooks(s: Store, l: nat, ev: LegEvent)
    requires l < |s.legs|
    ensures var t := ApplyEvent(s, l, ev);
            && IsBooked(s, l, ev, t) && t.legs == s.legs[l := Next(s.legs[l], ev)]
            && t.executions == s.executions && t.cooldowns == s.cooldowns
  {
  }

  /** The event happened to the leg, and its fill was booked. */
  ghost predicate Takes(s: Store, l: nat, ev: LegEvent, t: Store)
    requires l < |s.legs|
  {
    IsBooked(s, l, ev, t) && t == s.(fills := t.fills, positions := t.positions, legs := s.legs[l := Next(s.legs[l], ev)])
  }

  /** What processing a listed leg does in any reachable store: the leg takes the event that switches, accounts, positions,
      prices and the exchange make, what is newly filled is booked, and then its execution is reconciled by what its legs
      have come to, unless a client could not be built. */
  lemma ProcessingDoes(steps: seq<Step>, env: Env, l: nat, ex: Exchange) returns (ev: LegEvent, booked: Store)
    requires Listed(After(steps), l)
    ensures var s := After(steps);
            var leg, t := s.legs[l], ProcessLeg(s, env, l, ex);
            && IsEvent(s, env, leg, s.executions[leg.executionId], ex, ev) && Takes(s, l, ev, booked)
            && if HasNoClient(leg, ev) then t == booked else Follows(booked, t, env.market, leg.executionId, Find(booked, env.market, leg.executionId))
  {
    var s := After(steps);
    RunsAreProper(steps);
    ev, booked := EventOf(s, env, l, ex), ApplyEvent(s, l, EventOf(s, env, l, ex));
    EventIs(s, env, l, ex);
    EventBooks(s, l, ev);
    EventStaysProper(s, l, ev);
    ReconcilesWhatIsBooked(s, env, l, ex, ev, booked);
  }

  lemma ReconcilesWhatIsBooked(s: Store, env: Env, l: nat, ex: Exchange, ev: LegEvent, booked: Store)
    requires Listed(s, l) && ev == EventOf(s, env, l, ex) && booked == ApplyEvent(s, l, ev) && Proper(booked)
    ensures var e, t := s.legs[l].executionId, ProcessLeg(s, env, l, ex);
            && IsExecution(booked, e)
            && if HasNoClient(s.legs[l], ev) then t == booked else Follows(booked, t, env.market, e, Find(booked, env.market, e))
  {
    EscapeIs(s, env, l, ex);
    assert booked.legs[l].executionId == s.legs[l].executionId;
    ReconcileDoes(booked, env.market, s.legs[l].executionId);
  }

  lemma EscapeIs(s: Store, env: Env, l: nat, ex: Exchange)
    requires Listed(s, l)
    ensures Escapes(s.legs[l], EventOf(s, env, l, ex)) <==> HasNoClient(s.legs[l], EventOf(s, env, l, ex))
  {
  }
}

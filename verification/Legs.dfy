/** One order leg of an execution: submitting, polling, reposting and giving up (`_submit_order`, `_monitor_order`,
    `_retry_order`), as a function of the stored row and the exchange's answer, and what holds over every run. */
module Legs {
  import opened Prelude
  import opened Positions
  import opened Quantities

  datatype LegStatus = Pending | Created | Submitting | Submitted | Partial | Filled | Failed | Cancelled

  datatype LegRole = Left | Right

  /** A row of `arbitrage_order_legs`; an absent exchange order id is the empty string. */
  datatype Leg = Leg(
    executionId: nat,
    userId: int,
    accountId: int,
    role: LegRole,
    positionSide: PositionSide,
    instrument: Instrument,
    side: Side,
    requestedPrice: real,
    requestedQuantity: real,
    orderId: string,
    retryCount: int,
    averageFillPrice: real,
    filledQuantity: real,
    status: LegStatus)

  /** Arguments of `update_order_leg_status`: an absent one leaves its column unchanged. */
  datatype LegPatch = LegPatch(
    status: LegStatus,
    requestedPrice: Option<real>,
    requestedQuantity: Option<real>,
    orderId: Option<string>,
    retryCount: Option<int>,
    averageFillPrice: Option<real>,
    filledQuantity: Option<real>)

  function To(status: LegStatus): LegPatch {
    LegPatch(status, None, None, None, None, None, None)
  }

  function Patched(leg: Leg, p: LegPatch): Leg {
    leg.(status := p.status,
         requestedPrice := p.requestedPrice.GetOr(leg.requestedPrice),
         requestedQuantity := p.requestedQuantity.GetOr(leg.requestedQuantity),
         orderId := p.orderId.GetOr(leg.orderId),
         retryCount := p.retryCount.GetOr(leg.retryCount),
         averageFillPrice := p.averageFillPrice.GetOr(leg.averageFillPrice),
         filledQuantity := p.filledQuantity.GetOr(leg.filledQuantity))
  }

  const MAX_RETRIES := 10

  predicate Submittable(status: LegStatus) { status in {Pending, Created} }

  predicate Polled(status: LegStatus) { status in {Submitting, Submitted, Partial} }

  predicate Active(status: LegStatus) { Submittable(status) || Polled(status) }

  /** A leg is at rest when it is filled, failed or cancelled. */
  lemma ActiveIff(status: LegStatus)
    ensures Active(status) <==> status !in {Filled, Failed, Cancelled}
  {
    match status
    case Pending | Created | Submitting | Submitted | Partial =>
    case Filled | Failed | Cancelled =>
  }

  /** What an order attempt meets: the client cannot be built (and the error escapes), the order is refused, or it is
      accepted under an id. */
  datatype SubmitReply = ClientUnavailable | Refused | Accepted(orderId: string)

  datatype OrderState = OpenOrder | PartialOrder | FilledOrder | CancelledOrder | OddOrder

  /** What a poll meets: the client cannot be built, the query fails, or the exchange reports the order's state, its
      cumulative fill (in order units, and converted to base units) and its average price. */
  datatype PollReply = NoClient | NoAnswer | Report(state: OrderState, filled: real, base: real, average: real)

  function SomeIfPositive(x: real): Option<real> { if x > 0.0 then Some(x) else None }

  // ------------------------------------------------------------------ submit

  predicate Attempts(leg: Leg, accountActive: bool, positionGone: bool) {
    accountActive && leg.requestedPrice > 0.0 && leg.requestedQuantity > 0.0 && !positionGone
  }

  /** What submitting writes, going by the row it was given. */
  function SubmitPatch(row: Leg, accountActive: bool, positionGone: bool, reply: SubmitReply): LegPatch {
    if !accountActive || row.requestedPrice <= 0.0 || row.requestedQuantity <= 0.0 then To(Failed)
    else if positionGone then To(Filled).(filledQuantity := Some(0.0))
    else match reply
      case ClientUnavailable => To(Submitting)
      case Refused =>
        To(if row.retryCount + 1 >= MAX_RETRIES then Failed else Pending).(retryCount := Some(row.retryCount + 1))
      case Accepted(id) =>
        To(Submitted).(orderId := if id == "" then None else Some(id))
  }

  function AfterSubmit(leg: Leg, accountActive: bool, positionGone: bool, reply: SubmitReply): Leg {
    Patched(leg, SubmitPatch(leg, accountActive, positionGone, reply))
  }

  // -------------------------------------------------------------------- poll

  /** The fill that a poll books: what the order reports beyond the leg's stored filled quantity, in base units. */
  function FillDelta(leg: Leg, accountActive: bool, reply: PollReply): real {
    if accountActive && leg.orderId != "" && reply.Report? then MaxR(0.0, reply.base - leg.filledQuantity) else 0.0
  }

  /** `_to_order_quantity`. */
  function ToOrderQuantity(base: real, exchangeFilled: real, unit: Positive): real
  {
    if exchangeFilled > 0.0 then exchangeFilled else if base <= 0.0 then 0.0 else base / unit
  }

  /** What a retried leg asks for next; `filled` order units are `base` base units. */
  function NextRequest(leg: Leg, filled: real, base: real, unit: Positive): real
  {
    var remaining := MaxR(0.0, leg.requestedQuantity - ToOrderQuantity(MaxR(leg.filledQuantity, base), filled, unit));
    if remaining > 0.0 then remaining else leg.requestedQuantity
  }

  function RetryPatch(leg: Leg, filled: real, base: real, average: real, latestPrice: real, unit: Positive): LegPatch
  {
    var spent := leg.retryCount + 1 >= MAX_RETRIES;
    LegPatch(
      if spent then Failed else Pending,
      if spent then None else SomeIfPositive(if latestPrice > 0.0 then latestPrice else leg.requestedPrice),
      if spent then None else SomeIfPositive(NextRequest(leg, filled, base, unit)),
      None,
      Some(leg.retryCount + 1),
      SomeIfPositive(average),
      SomeIfPositive(MaxR(leg.filledQuantity, base)))
  }

  function AfterReport(leg: Leg, state: OrderState, filled: real, base: real, average: real, expired: bool, latestPrice: real, unit: Positive): Leg
  {
    match state
    case FilledOrder =>
      Patched(leg, To(Filled).(averageFillPrice := Some(average), filledQuantity := Some(base)))
    case PartialOrder =>
      if expired then Patched(leg, RetryPatch(leg, filled, base, average, latestPrice, unit))
      else Patched(leg, To(Partial).(averageFillPrice := SomeIfPositive(average), filledQuantity := SomeIfPositive(base)))
    case OpenOrder =>
      if expired then Patched(leg, RetryPatch(leg, filled, base, average, latestPrice, unit)) else leg
    case CancelledOrder =>
      Patched(leg, To(if leg.retryCount >= MAX_RETRIES then Failed else Pending))
    case OddOrder =>
      Patched(leg, To(Failed))
  }

  function AfterPoll(leg: Leg, accountActive: bool, reply: PollReply, expired: bool, latestPrice: real, unit: Positive): Leg
  {
    if !accountActive then Patched(leg, To(Failed))
    else if leg.orderId == "" || !reply.Report? then leg
    else AfterReport(leg, reply.state, reply.filled, reply.base, reply.average, expired, latestPrice, unit)
  }

  // -------------------------------------------------------------------- runs

  /** Everything the system does to a leg row. */
  datatype LegEvent =
    | Submit(accountActive: bool, positionGone: bool, submitReply: SubmitReply)
    | Poll(accountActive: bool, pollReply: PollReply, expired: bool, latestPrice: real, unit: Positive)
    | Block
    | Abandon

  function Next(leg: Leg, ev: LegEvent): Leg
  {
    match ev
    case Submit(active, gone, reply) => if Submittable(leg.status) then AfterSubmit(leg, active, gone, reply) else leg
    case Poll(active, reply, expired, latest, unit) => if Polled(leg.status) then AfterPoll(leg, active, reply, expired, latest, unit) else leg
    case Block => if Active(leg.status) then Patched(leg, To(Failed)) else leg
    case Abandon => if Active(leg.status) && leg.orderId == "" then Patched(leg, To(Failed)) else leg
  }

  /** A leg's history in numbers: order attempts, cancellations by the exchange, changes of status or retry count, and
      the base quantity booked into the fill ledger. */
  datatype Run = Run(leg: Leg, attempts: nat, cancels: nat, moves: nat, ledger: real)

  predicate IsAttempt(leg: Leg, ev: LegEvent) {
    ev.Submit? && Submittable(leg.status) && Attempts(leg, ev.accountActive, ev.positionGone) && !ev.submitReply.ClientUnavailable?
  }

  predicate IsCancel(leg: Leg, ev: LegEvent) {
    ev.Poll? && Polled(leg.status) && ev.accountActive && leg.orderId != "" && ev.pollReply.Report? && ev.pollReply.state.CancelledOrder?
  }

  function BookedBy(leg: Leg, ev: LegEvent): real {
    if ev.Poll? && Polled(leg.status) then FillDelta(leg, ev.accountActive, ev.pollReply) else 0.0
  }

  function Advance(r: Run, ev: LegEvent): Run
  {
    var next := Next(r.leg, ev);
    Run(next,
        r.attempts + if IsAttempt(r.leg, ev) then 1 else 0,
        r.cancels + if IsCancel(r.leg, ev) then 1 else 0,
        r.moves + if next.status != r.leg.status || next.retryCount != r.leg.retryCount then 1 else 0,
        r.ledger + BookedBy(r.leg, ev))
  }

  function Play(leg: Leg, events: seq<LegEvent>): Run
  {
    if events == [] then Run(leg, 0, 0, 0, 0.0)
    else Advance(Play(leg, events[..|events| - 1]), events[|events| - 1])
  }

  /** A leg as it is created. */
  predicate Fresh(leg: Leg) {
    leg.status == Pending && leg.retryCount == 0 && leg.orderId == "" && leg.filledQuantity == 0.0
  }

  /** Unspent budget: four for every retry left, and how far the status still is from the end. */
  function Potential(leg: Leg): int {
    4 * (MAX_RETRIES - leg.retryCount)
    + match leg.status
      case Pending | Created => 3
      case Submitting | Submitted => 2
      case Partial => 1
      case Filled | Failed | Cancelled => 0
  }

  predicate RunBounds(r: Run) {
    && 0 <= r.leg.retryCount <= MAX_RETRIES
    && (r.leg.retryCount == MAX_RETRIES ==> r.leg.status == Failed)
    && r.leg.status !in {Created, Cancelled}
    && r.attempts <= r.leg.retryCount + r.cancels + (if Submittable(r.leg.status) || r.leg.retryCount == MAX_RETRIES then 0 else 1)
    && r.moves + Potential(r.leg) <= 43 + 3 * r.cancels
    && r.ledger >= r.leg.filledQuantity && r.ledger >= 0.0
    && (r.leg.filledQuantity >= 0.0 || r.leg.status == Filled)
  }

  lemma AdvanceKeepsBounds(r: Run, ev: LegEvent)
    requires RunBounds(r)
    ensures RunBounds(Advance(r, ev))
  {
    match ev
    case Submit(_, _, _) => SubmitKeepsBounds(r, ev);
    case Poll(active, reply, _, _, _) =>
      if Polled(r.leg.status) && active && r.leg.orderId != "" && reply.Report? {
        if reply.state in {OpenOrder, PartialOrder} { RetryKeepsBounds(r, ev); } else { EndKeepsBounds(r, ev); }
      }
    case Block =>
    case Abandon =>
  }

  lemma SubmitKeepsBounds(r: Run, ev: LegEvent)
    requires RunBounds(r) && ev.Submit?
    ensures RunBounds(Advance(r, ev))
  {
  }

  lemma EndKeepsBounds(r: Run, ev: LegEvent)
    requires RunBounds(r) && Polled(r.leg.status) && r.leg.orderId != ""
    requires ev.Poll? && ev.accountActive && ev.pollReply.Report? && ev.pollReply.state !in {OpenOrder, PartialOrder}
    ensures RunBounds(Advance(r, ev))
  {
  }

  lemma RetryKeepsBounds(r: Run, ev: LegEvent)
    requires RunBounds(r) && Polled(r.leg.status) && r.leg.orderId != ""
    requires ev.Poll? && ev.accountActive && ev.pollReply.Report? && ev.pollReply.state in {OpenOrder, PartialOrder}
    ensures RunBounds(Advance(r, ev))
  {
    assert FillDelta(r.leg, true, ev.pollReply) >= ev.pollReply.base - r.leg.filledQuantity;
  }

  /** Over every run of a fresh leg: the retry count never exceeds 10 and reaches it only in `failed`; at most ten
      orders are attempted, plus one for every cancellation by the exchange; at most 43 steps change anything, plus
      three for every cancellation; and the fills booked never fall short of the stored filled quantity. */
  lemma {:induction false} RunIsBounded(leg: Leg, events: seq<LegEvent>)
    requires Fresh(leg)
    ensures var r := Play(leg, events);
            && RunBounds(r)
            && r.attempts <= MAX_RETRIES + r.cancels
            && r.moves <= 43 + 3 * r.cancels
  {
    if events != [] {
      RunIsBounded(leg, events[..|events| - 1]);
      AdvanceKeepsBounds(Play(leg, events[..|events| - 1]), events[|events| - 1]);
    }
  }

  /** The branch for a cancelled order with no retries left is never taken: such a leg has already failed. */
  lemma SpentBudgetIsNeverPolled(leg: Leg, events: seq<LegEvent>)
    requires Fresh(leg)
    ensures Polled(Play(leg, events).leg.status) ==> Play(leg, events).leg.retryCount < MAX_RETRIES
  {
    RunIsBounded(leg, events);
  }

  /** Every step that changes status or retry count, other than a cancellation by the exchange, uses up budget, so
      legs cannot circle. */
  lemma MovesSpendBudget(leg: Leg, ev: LegEvent)
    requires leg.status != Created
    requires !IsCancel(leg, ev)
    ensures var next := Next(leg, ev);
            next.status != leg.status || next.retryCount != leg.retryCount ==> Potential(next) < Potential(leg)
  {
  }

  /** What gets a leg out of `submitting` without an order id. */
  predicate Frees(ev: LegEvent) {
    ev.Block? || ev.Abandon? || (ev.Poll? && !ev.accountActive)
  }

  /** A first order whose client cannot be built leaves the leg `submitting` without an order id, and from there no
      poll of an active account ever changes it: the leg is as it was exactly as long as the account has not gone away,
      the opening has not been blocked and the execution has not failed. */
  lemma {:induction false} SubmittingWithoutOrderIsStuck(leg: Leg, events: seq<LegEvent>)
    requires leg.status == Submitting && leg.orderId == ""
    ensures Play(leg, events).leg == leg <==> forall i :: 0 <= i < |events| ==> !Frees(events[i])
    ensures Play(leg, events).leg == leg || !Active(Play(leg, events).leg.status)
  {
    if events != [] {
      var n := |events| - 1;
      SubmittingWithoutOrderIsStuck(leg, events[..n]);
      assert Play(leg, events).leg == Next(Play(leg, events[..n]).leg, events[n]);
    }
  }

  /** The worker reads a batch of rows before it processes them. A leg that has been abandoned since its row was read, for
      the failure of its sister leg in the same batch, is submitted by that row nevertheless: it comes back to life unless
      the row itself cannot be submitted or its budget is spent. */
  lemma StaleRowRevivesIff(row: Leg, accountActive: bool, positionGone: bool, reply: SubmitReply)
    requires Submittable(row.status) && row.orderId == ""
    ensures Next(row, Abandon).status == LegStatus.Failed
    ensures var leg := Patched(Next(row, Abandon), SubmitPatch(row, accountActive, positionGone, reply));
            Active(leg.status)
            <==> Attempts(row, accountActive, positionGone) && (reply.Refused? ==> row.retryCount + 1 < MAX_RETRIES)
  {
  }
}

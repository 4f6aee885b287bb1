/** The arbitrage tables and every step the services take on them, as functions of the stored rows. */
module Executions {
  import opened Prelude
  import opened Positions
  import opened Quantities
  import opened Legs
  import Text

  datatype Action = Open | Close

  /** The stored statuses; ToStart, Made and Broken are `pending`, `created` and `failed`. */
  datatype ExecutionStatus = ToStart | Made | Processing | Opening | Opened | Closing | Closed | Broken

  /** The statuses under which an execution still counts as running. */
  predicate Live(status: ExecutionStatus) {
    status in {ToStart, Made, Processing, Opening, Opened, Closing}
  }

  /** All but closed and failed ones. */
  lemma LiveIff(status: ExecutionStatus)
    ensures Live(status) <==> status !in {Closed, Broken}
  {
    match status
    case ToStart | Made | Processing | Opening | Opened | Closing =>
    case Closed | Broken =>
  }

  /** A row of `arbitrage_executions`; its id is its place in the table. */
  datatype Execution = Execution(
    userId: int,
    ruleId: int,
    source: Option<nat>,
    pairKey: string,
    action: Action,
    left: Instrument,
    right: Instrument,
    plannedAmount: real,
    status: ExecutionStatus)

  datatype PositionKey = PositionKey(accountId: int, marketType: string, symbol: string, positionSide: PositionSide)

  /** A row of `arbitrage_fill_records`. */
  datatype FillRecord = FillRecord(
    executionId: nat,
    legId: nat,
    key: PositionKey,
    side: Side,
    price: real,
    quantity: real)

  /** The stored rows. Ids are assigned in order and no row is ever deleted, so a table is a sequence indexed by id;
      `cooldowns` holds the (user, pair key) entries that keep a pair from being opened. */
  datatype Store = Store(
    executions: seq<Execution>,
    legs: seq<Leg>,
    fills: seq<FillRecord>,
    positions: map<PositionKey, Position>,
    cooldowns: set<(int, string)>)

  /** What the other tables and the ticker cache answer during one step: enabled (rule, user) pairs, the exchange
      switches, the usable (account, user) pairs, and the market data. */
  datatype Env = Env(
    enabledRules: set<(int, int)>,
    exchangeEnabled: map<string, bool>,
    activeAccounts: set<(int, int)>,
    market: Market)

  // ----------------------------------------------------------------- queries

  predicate IsExecution(s: Store, e: nat) { e < |s.executions| }

  function Lookup(positions: map<PositionKey, Position>, key: PositionKey): Option<Position> {
    if key in positions then Some(positions[key]) else None
  }

  /** `get_open_position`. */
  function OpenPosition(s: Store, key: PositionKey): Option<Position> {
    OpenRow(Lookup(s.positions, key))
  }

  function HeldQuantity(s: Store, key: PositionKey): real {
    Quantity(Lookup(s.positions, key))
  }

  /** `get_position_quantity`: the open row of that side, else an open `net` row. */
  function PositionQuantity(s: Store, key: PositionKey): Option<real> {
    if key.accountId <= 0 || key.marketType == "" || key.symbol == "" then None
    else if OpenPosition(s, key).Some? then Some(HeldQuantity(s, key))
    else if OpenPosition(s, key.(positionSide := Net)).Some? then Some(HeldQuantity(s, key.(positionSide := Net)))
    else None
  }

  predicate IsOpenRow(s: Store, key: PositionKey) { key in s.positions && s.positions[key].isOpen }

  /** What is read of a side is its own open row, or an open `net` row where it has none. */
  lemma NetRowStandsIn(s: Store, key: PositionKey)
    requires key.accountId > 0 && key.marketType != "" && key.symbol != ""
    ensures var net := key.(positionSide := Net);
            && (IsOpenRow(s, key) ==> PositionQuantity(s, key) == Some(s.positions[key].quantity))
            && (!IsOpenRow(s, key) && IsOpenRow(s, net) ==> PositionQuantity(s, key) == Some(s.positions[net].quantity))
            && (!IsOpenRow(s, key) && !IsOpenRow(s, net) ==> PositionQuantity(s, key) == None)
  {
  }

  function LegKey(leg: Leg): PositionKey {
    PositionKey(leg.accountId, leg.instrument.marketType, leg.instrument.symbol, leg.positionSide)
  }

  /** The statuses of an execution's legs, as a set. */
  function LegStatuses(s: Store, e: nat): set<LegStatus> {
    set l | 0 <= l < |s.legs| && s.legs[l].executionId == e :: s.legs[l].status
  }

  predicate AnyLegSpent(s: Store, e: nat) {
    exists l :: 0 <= l < |s.legs| && s.legs[l].executionId == e && s.legs[l].retryCount >= MAX_RETRIES
  }

  predicate LegExposed(s: Store, leg: Leg) {
    leg.filledQuantity > 0.0 || PositionQuantity(s, LegKey(leg)).GetOr(0.0) > 0.0
  }

  predicate AnyLegExposed(s: Store, e: nat) {
    exists l :: 0 <= l < |s.legs| && s.legs[l].executionId == e && LegExposed(s, s.legs[l])
  }

  /** A leg row as a query returns it. */
  datatype LegRow = LegRow(id: nat, leg: Leg)

  /** `list_order_legs_by_execution`: the legs of an execution in id order. */
  function ListLegs(legs: seq<Leg>, e: nat): seq<LegRow> {
    if legs == [] then []
    else
      var n := |legs| - 1;
      ListLegs(legs[..n], e) + if legs[n].executionId == e then [LegRow(n, legs[n])] else []
  }

  /** `rows` holds every leg of the execution exactly once, in whatever order. */
  ghost predicate IsListing(rows: seq<LegRow>, legs: seq<Leg>, e: nat) {
    && (forall i :: 0 <= i < |rows| ==> RowOf(rows[i], legs, e))
    && (forall i, j :: 0 <= i < j < |rows| ==> rows[i].id != rows[j].id)
    && (forall l :: 0 <= l < |legs| && legs[l].executionId == e ==> exists i :: 0 <= i < |rows| && rows[i].id == l)
  }

  lemma {:induction false} ListLegsLists(legs: seq<Leg>, e: nat)
    ensures IsListing(ListLegs(legs, e), legs, e)
    ensures Ascending(ListLegs(legs, e))
  {
    var rows := ListLegs(legs, e);
    ListedRows(legs, e);
    forall l | 0 <= l < |legs| && legs[l].executionId == e ensures exists i :: 0 <= i < |rows| && rows[i].id == l {
      var i := ListedAt(legs, e, l);
      assert rows[i].id == l;
    }
  }

  predicate RowOf(row: LegRow, legs: seq<Leg>, e: nat) {
    row.id < |legs| && row.leg == legs[row.id] && row.leg.executionId == e
  }

  ghost predicate Ascending(rows: seq<LegRow>) {
    forall i, j :: 0 <= i < j < |rows| ==> rows[i].id < rows[j].id
  }

  lemma {:induction false} ListedRows(legs: seq<Leg>, e: nat)
    ensures forall i :: 0 <= i < |ListLegs(legs, e)| ==> RowOf(ListLegs(legs, e)[i], legs, e)
    ensures Ascending(ListLegs(legs, e))
  {
    if legs != [] {
      var n := |legs| - 1;
      var rows, earlier := ListLegs(legs, e), ListLegs(legs[..n], e);
      ListedRows(legs[..n], e);
      assert rows == earlier + if legs[n].executionId == e then [LegRow(n, legs[n])] else [];
      forall i | 0 <= i < |rows| ensures RowOf(rows[i], legs, e) {
        if i < |earlier| { assert RowOf(earlier[i], legs[..n], e); }
      }
      forall i, j | 0 <= i < j < |rows| ensures rows[i].id < rows[j].id {
        if j == |earlier| { assert RowOf(earlier[i], legs[..n], e); }
      }
    }
  }

  lemma {:induction false} ListedAt(legs: seq<Leg>, e: nat, l: nat) returns (i: nat)
    requires l < |legs| && legs[l].executionId == e
    ensures i < |ListLegs(legs, e)| && ListLegs(legs, e)[i].id == l
  {
    var n := |legs| - 1;
    if l < n { i := ListedAt(legs[..n], e, l); } else { i := |ListLegs(legs[..n], e)|; }
  }

  /** The first leg of an execution in that role, in id order. */
  function FirstLeg(legs: seq<Leg>, e: nat, role: LegRole): (found: Option<nat>)
    ensures found.Some? ==> found.value < |legs| && legs[found.value].executionId == e && legs[found.value].role == role
  {
    if legs == [] then None
    else
      var earlier := FirstLeg(legs[..|legs| - 1], e, role);
      if earlier.Some? then earlier
      else if legs[|legs| - 1].executionId == e && legs[|legs| - 1].role == role then Some(|legs| - 1)
      else None
  }

  predicate IsLiveCloseOf(x: Execution, userId: int, ruleId: int, pairKey: string) {
    x.action == Close && x.userId == userId && x.ruleId == ruleId && x.pairKey == pairKey && Live(x.status)
  }

  /** `has_open_close_execution`. */
  predicate HasLiveClose(s: Store, userId: int, ruleId: int, pairKey: string) {
    exists i :: 0 <= i < |s.executions| && IsLiveCloseOf(s.executions[i], userId, ruleId, pairKey)
  }

  predicate PairBusy(s: Store, x: Execution) { HasLiveClose(s, x.userId, x.ruleId, x.pairKey) }

  /** `get_latest_close_execution_by_source`. */
  function LatestClose(executions: seq<Execution>, source: nat): (found: Option<nat>)
    ensures found.Some? ==> found.value < |executions| && executions[found.value].action == Close
                            && executions[found.value].source == Some(source)
    ensures forall i :: 0 <= i < |executions| && executions[i].action == Close && executions[i].source == Some(source)
                        ==> found.Some? && i <= found.value
  {
    if executions == [] then None
    else
      var last := |executions| - 1;
      if executions[last].action == Close && executions[last].source == Some(source) then Some(last)
      else LatestClose(executions[..last], source)
  }

  // ------------------------------------------------------------------ writes

  function SetStatus(s: Store, e: nat, status: ExecutionStatus): Store
    requires IsExecution(s, e)
  {
    s.(executions := s.executions[e := s.executions[e].(status := status)])
  }

  function SetLeg(s: Store, l: nat, leg: Leg): Store
    requires l < |s.legs|
  {
    s.(legs := s.legs[l := leg])
  }

  /** One booked fill: a ledger record and the position row that follows from it. */
  function BookFill(s: Store, l: nat, quantity: real, price: real): Store
    requires l < |s.legs|
  {
    var leg := s.legs[l];
    var key := LegKey(leg);
    s.(fills := s.fills + [FillRecord(leg.executionId, l, key, leg.side, price, quantity)],
       positions := s.positions[key := Book(Lookup(s.positions, key), leg.positionSide,
                                            Trade(leg.side, quantity, price, leg.executionId, l, |s.fills|))])
  }

  /** `_mark_cooldown`, under the stripped pair key. */
  function Cooldown(s: Store, x: Execution): Store {
    var key := Text.Strip(x.pairKey);
    if x.userId <= 0 || key == "" then s else s.(cooldowns := s.cooldowns + {(x.userId, key)})
  }

  // ------------------------------------------------------------ opening pairs

  datatype PairPlan = PairPlan(
    userId: int,
    ruleId: int,
    pairKey: string,
    leftAccount: int,
    rightAccount: int,
    left: Instrument,
    right: Instrument,
    orderAmount: real)

  function NewLeg(e: nat, userId: int, accountId: int, role: LegRole, ps: PositionSide, i: Instrument, side: Side, plan: Plan): Leg {
    Leg(e, userId, accountId, role, ps, i, side, plan.requestedPrice, plan.orderQuantity, "", 0, 0.0, 0.0, Pending)
  }

  /** `create_open_execution` for either strategy: a long left leg and a short right leg sized from it. */
  function OpenPair(s: Store, m: Market, p: PairPlan): Option<Store> {
    var l, r := OpenLeft(m, p.left, p.orderAmount), OpenRight(m, p.left, p.right, p.orderAmount);
    if p.leftAccount <= 0 || p.rightAccount <= 0 || p.left.marketType != "swap" || p.right.marketType != "swap"
       || l.orderQuantity <= 0.0 || r.orderQuantity <= 0.0 then None
    else
      var e := |s.executions|;
      Some(s.(executions := s.executions + [Execution(p.userId, p.ruleId, None, p.pairKey, Open, p.left, p.right, p.orderAmount, ToStart)],
              legs := s.legs + [NewLeg(e, p.userId, p.leftAccount, Left, Long, p.left, Buy, l),
                                NewLeg(e, p.userId, p.rightAccount, Right, Short, p.right, Sell, r)]))
  }

  // ---------------------------------------------------------------- closing

  function ClosePlan(s: Store, m: Market, leg: Leg, i: Instrument, side: Side): Option<Plan> {
    var held := HeldQuantity(s, PositionKey(leg.accountId, i.marketType, i.symbol, leg.positionSide));
    if held <= 0.0 then None
    else
      var plan := BuildPlan(m, i, side, 0.0, Some(held));
      if plan.orderQuantity <= 0.0 then None else Some(plan)
  }

  function CloseLeg(plan: Option<Plan>, e: nat, userId: int, source: Leg, role: LegRole, i: Instrument, side: Side): seq<Leg> {
    if plan.None? then [] else [NewLeg(e, userId, source.accountId, role, source.positionSide, i, side, plan.value)]
  }

  function PlannedValue(plan: Option<Plan>): real { if plan.None? then 0.0 else plan.value.orderValue }

  /** `create_close_execution`: sell what the left leg holds and buy back what the right leg holds. */
  function CreateClose(s: Store, m: Market, e: nat): Option<Store>
    requires IsExecution(s, e)
  {
    var x := s.executions[e];
    var left, right := FirstLeg(s.legs, e, Left), FirstLeg(s.legs, e, Right);
    if x.action == Close || left.None? || right.None? then None
    else
      var l, r := s.legs[left.value], s.legs[right.value];
      var lp, rp := ClosePlan(s, m, l, x.left, Sell), ClosePlan(s, m, r, x.right, Buy);
      if lp.None? && rp.None? then None
      else
        var c := |s.executions|;
        Some(s.(executions := s.executions + [x.(source := Some(e), action := Close, status := ToStart,
                                                 plannedAmount := PlannedValue(lp) + PlannedValue(rp))],
                legs := s.legs + CloseLeg(lp, c, x.userId, l, Left, x.left, Sell) + CloseLeg(rp, c, x.userId, r, Right, x.right, Buy)))
  }

  // ------------------------------------------------------------- reconciling

  /** What the set of leg statuses says about an execution. */
  datatype Verdict = NoLegs | InProgress | AllFilled | SomeLegFailed

  function Judge(statuses: set<LegStatus>): Verdict {
    if statuses == {} then NoLegs
    else if LegStatus.Failed in statuses then SomeLegFailed
    else if statuses == {Filled} then AllFilled
    else if Cancelled in statuses && statuses <= {Cancelled, Filled} then SomeLegFailed
    else InProgress
  }

  /** Legs of a failed execution that never reached the exchange fail with it. */
  function Abandoned(s: Store, e: nat): Store {
    s.(legs := seq(|s.legs|, l requires 0 <= l < |s.legs| =>
                 if s.legs[l].executionId == e then Next(s.legs[l], Abandon) else s.legs[l]))
  }

  /** Writes `status` to the source of a close, unless the source is already closed. */
  function RestoreSource(s: Store, e: nat, status: ExecutionStatus): Store
    requires IsExecution(s, e)
  {
    var source := s.executions[e].source;
    if source.None? || !IsExecution(s, source.value) || s.executions[source.value].status == Closed then s
    else SetStatus(s, source.value, status)
  }

  predicate CanForceClose(x: Execution) { x.userId > 0 && x.ruleId > 0 && x.pairKey != "" }

  /** `_schedule_force_close`; the flag tells whether a close is under way. */
  function ForceClose(s: Store, m: Market, e: nat): (Store, bool)
    requires IsExecution(s, e)
  {
    var x := s.executions[e];
    if !CanForceClose(x) then (s, false)
    else if PairBusy(s, x) then (SetStatus(s, e, Closing), true)
    else match CreateClose(s, m, e)
      case None => (Cooldown(s, x), false)
      case Some(s') => (SetStatus(s', e, Closing), true)
  }

  /** `_handle_failed_execution`. */
  function HandleFailed(s: Store, m: Market, e: nat): Store
    requires IsExecution(s, e)
  {
    var x, s1 := s.executions[e], Abandoned(s, e);
    if x.action == Close then
      if AnyLegSpent(s, e) then RestoreSource(Cooldown(s1, x), e, Opened) else RestoreSource(s1, e, Closing)
    else
      var (s2, scheduled) := if AnyLegExposed(s, e) then ForceClose(s1, m, e) else (s1, false);
      if !scheduled && AnyLegSpent(s, e) then Cooldown(s2, x) else s2
  }

  /** `reconcile_execution`. */
  function Reconcile(s: Store, m: Market, e: nat): Store {
    if !IsExecution(s, e) then s
    else
      var open := s.executions[e].action == Open;
      match Judge(LegStatuses(s, e))
      case NoLegs => s
      case InProgress => SetStatus(s, e, if open then Opening else Closing)
      case AllFilled => if open then SetStatus(s, e, Opened) else RestoreSource(SetStatus(s, e, Closed), e, Closed)
      case SomeLegFailed => HandleFailed(SetStatus(s, e, Broken), m, e)
  }

  // ---------------------------------------------------------- order-leg step

  /** What the exchange answers while one leg is processed; `filled` in order units. */
  datatype Exchange = Exchange(submit: SubmitReply, poll: ExchangePoll, expired: bool)

  datatype ExchangePoll = Unbuilt | Unanswered | Answer(state: OrderState, filled: real, average: real)

  function ReplyInBase(p: ExchangePoll, unit: Positive): PollReply {
    match p
    case Unbuilt => NoClient
    case Unanswered => NoAnswer
    case Answer(state, filled, average) => Report(state, filled, filled * unit, average)
  }

  /** `_block_disabled_opening_flow`: opening legs stop when their rule or their exchange is switched off. */
  predicate OpeningBlocked(env: Env, x: Execution, leg: Leg) {
    x.action == Open
    && ((x.ruleId > 0 && leg.userId > 0 && (x.ruleId, leg.userId) !in env.enabledRules)
        || (leg.instrument.exchange != "" && leg.instrument.exchange in env.exchangeEnabled
            && !env.exchangeEnabled[leg.instrument.exchange]))
  }

  /** `_should_skip_close_leg`. */
  predicate PositionGone(s: Store, x: Execution, leg: Leg) {
    x.action == Close && HeldQuantity(s, LegKey(leg)) <= 0.0
  }

  /** The event that processing leg `l` amounts to. */
  function EventOf(s: Store, env: Env, l: nat, ex: Exchange): LegEvent
    requires l < |s.legs| && IsExecution(s, s.legs[l].executionId)
  {
    var leg, x := s.legs[l], s.executions[s.legs[l].executionId];
    var active := (leg.accountId, leg.userId) in env.activeAccounts;
    if OpeningBlocked(env, x, leg) then Block
    else if Submittable(leg.status) then Submit(active, PositionGone(s, x, leg), ex.submit)
    else Poll(active, ReplyInBase(ex.poll, env.market.Unit(leg.instrument)), ex.expired,
              env.market.LatestPrice(leg.instrument, leg.side), env.market.Unit(leg.instrument))
  }

  /** The step ends early, without reconciling, when a client cannot be built. */
  predicate Escapes(leg: Leg, ev: LegEvent) {
    || (ev.Submit? && Submittable(leg.status) && Attempts(leg, ev.accountActive, ev.positionGone) && ev.submitReply.ClientUnavailable?)
    || (ev.Poll? && Polled(leg.status) && ev.accountActive && ev.pollReply.NoClient?)
  }

  function ApplyEvent(s: Store, l: nat, ev: LegEvent): Store
    requires l < |s.legs|
  {
    var leg := s.legs[l];
    var booked := BookedBy(leg, ev);
    var s1 := if booked > 0.0 then BookFill(s, l, booked, ev.pollReply.average) else s;
    SetLeg(s1, l, Next(leg, ev))
  }

  /** Rows that `list_pending_order_legs` hands to the worker. */
  predicate Listed(s: Store, l: nat) {
    l < |s.legs| && IsExecution(s, s.legs[l].executionId) && Active(s.legs[l].status)
  }

  /** `process_order_leg` on a stored row. */
  function ProcessLeg(s: Store, env: Env, l: nat, ex: Exchange): Store
    requires Listed(s, l)
  {
    var leg, ev := s.legs[l], EventOf(s, env, l, ex);
    var s1 := ApplyEvent(s, l, ev);
    if Escapes(leg, ev) then s1 else Reconcile(s1, env.market, leg.executionId)
  }

  // -------------------------------------------------------- closing triggers

  datatype Exposure = Exposure(left: real, right: real)

  /** `_inspect_execution_positions`: what the two sides of an opened pair still hold. */
  function ExposureOf(s: Store, e: nat): Exposure
    requires IsExecution(s, e)
  {
    var x, left, right := s.executions[e], FirstLeg(s.legs, e, Left), FirstLeg(s.legs, e, Right);
    if left.None? || right.None? then Exposure(0.0, 0.0)
    else
      var l, r := s.legs[left.value], s.legs[right.value];
      Exposure(PositionQuantity(s, PositionKey(l.accountId, x.left.marketType, x.left.symbol, l.positionSide)).GetOr(0.0),
               PositionQuantity(s, PositionKey(r.accountId, x.right.marketType, x.right.symbol, r.positionSide)).GetOr(0.0))
  }

  /** Creates a close and marks its source, or leaves the store alone when there is nothing to close. */
  function CloseAndMark(s: Store, m: Market, e: nat): Store
    requires IsExecution(s, e)
  {
    match CreateClose(s, m, e)
    case None => s
    case Some(s') => SetStatus(s', e, Closing)
  }

  /** One row of `_scan_open_executions`; `wantsClose` says whether the strategy gives a reason to close. */
  function InspectOpen(s: Store, m: Market, e: nat, wantsClose: bool): Store {
    if !IsExecution(s, e) || s.executions[e].action != Open || s.executions[e].status != Opened || PairBusy(s, s.executions[e]) then s
    else
      var held := ExposureOf(s, e);
      if held.left <= 0.0 && held.right <= 0.0 then SetStatus(s, e, Closed)
      else if (held.left > 0.0) != (held.right > 0.0) || wantsClose then CloseAndMark(s, m, e)
      else s
  }

  /** One row of `_schedule_close_for_rule_open_positions`. */
  function CloseForRule(s: Store, m: Market, userId: int, ruleId: int, e: nat): Store {
    if !IsExecution(s, e) || s.executions[e].userId != userId || s.executions[e].ruleId != ruleId
       || s.executions[e].action != Open || s.executions[e].status != Opened || PairBusy(s, s.executions[e]) then s
    else CloseAndMark(s, m, e)
  }

  datatype CloseRequest = Refuse | AlreadyPending(closeId: nat) | Started(closeId: nat)

  /** `request_close_execution`. */
  function RequestClose(s: Store, m: Market, userId: int, e: nat): (Store, CloseRequest) {
    if !IsExecution(s, e) || s.executions[e].userId != userId || s.executions[e].action != Open || s.executions[e].status == Closed
    then (s, Refuse)
    else
      var latest := LatestClose(s.executions, e);
      if latest.Some? && Live(s.executions[latest.value].status) then (SetStatus(s, e, Closing), AlreadyPending(latest.value))
      else match CreateClose(s, m, e)
        case None => (s, Refuse)
        case Some(s') => (SetStatus(s', e, Closing), Started(|s.executions|))
  }
}

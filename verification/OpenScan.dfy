/** Opening pairs from opportunities (`arbitrage_opportunity_monitor_service`): pair keys, gates and the cap on pairs. */
module OpenScan {
  import opened Prelude
  import opened Text
  import opened Positions
  import opened Quantities
  import opened Legs
  import opened Executions
  import opened ExecutionRepository
  import opened ExecutionPlanService

  /** An opportunity row, and what the clock, the cache and the market answer when its turn comes: whether the strategy
      wants it, whether its cooldown has run out and whether the interval since the last order has passed. */
  datatype Opportunity = Opportunity(
    marketPairKey: string,
    symbol: string,
    leftExchange: string,
    rightExchange: string,
    leftAccount: int,
    rightAccount: int,
    left: Instrument,
    right: Instrument,
    wanted: bool,
    cooldownOver: bool,
    intervalOver: bool,
    market: Market)

  /** A strategy rule as the scan reads it; a cap or a position limit of zero is none. */
  datatype Rule = Rule(id: nat, maxPairs: int, maxPosition: real, orderAmount: real)

  // --------------------------------------------------------------- pair keys

  function SortTwo(a: string, b: string): seq<string> {
    if Less(b, a) then [b, a] else [a, b]
  }

  /** The codes that are not empty, in order. */
  function OrderedCodes(a: string, b: string): seq<string> {
    if a == "" && b == "" then []
    else if a == "" then [b]
    else if b == "" then [a]
    else SortTwo(a, b)
  }

  function JoinCodes(codes: seq<string>): string {
    if codes == [] then "" else if |codes| == 1 then codes[0] else codes[0] + ":" + JoinCodes(codes[1..])
  }

  /** `_build_pair_key` of the monitor. */
  function MonitorKey(ruleId: nat, o: Opportunity): string {
    var marketKey := Norm(o.marketPairKey);
    if marketKey != "" then Decimal(ruleId) + ":" + marketKey
    else
      var left, right := Norm(o.leftExchange), Norm(o.rightExchange);
      Decimal(ruleId) + ":" + o.symbol + ":" + JoinCodes(OrderedCodes(left, right))
  }

  /** `_build_pair_key` of the plan service, which is given the codes lowered already. */
  function PlanKey(ruleId: nat, marketPairKey: string, symbol: string, leftCode: string, rightCode: string): string {
    var marketKey := Norm(marketPairKey);
    if marketKey != "" then Decimal(ruleId) + ":" + marketKey
    else
      var left := if Strip(leftCode) == "" then "" else Norm(leftCode);
      var right := if Strip(rightCode) == "" then "" else Norm(rightCode);
      Decimal(ruleId) + ":" + symbol + ":" + JoinCodes(OrderedCodes(left, right))
  }

  function KeyOfPlan(ruleId: nat, o: Opportunity): string {
    PlanKey(ruleId, o.marketPairKey, o.symbol, Lower(o.leftExchange), Lower(o.rightExchange))
  }

  function Swapped(o: Opportunity): Opportunity {
    o.(leftExchange := o.rightExchange, rightExchange := o.leftExchange, leftAccount := o.rightAccount,
       rightAccount := o.leftAccount, left := o.right, right := o.left)
  }

  /** The key the monitor looks up is the key the plan service stores. */
  lemma BuildersAgree(ruleId: nat, o: Opportunity)
    ensures KeyOfPlan(ruleId, o) == MonitorKey(ruleId, o)
  {
    StripLower(o.leftExchange);
    StripLower(o.rightExchange);
    LowerTwice(Strip(o.leftExchange));
    LowerTwice(Strip(o.rightExchange));
  }

  /** Which leg is left and which is right does not matter. */
  lemma KeyIgnoresSides(ruleId: nat, o: Opportunity)
    ensures MonitorKey(ruleId, Swapped(o)) == MonitorKey(ruleId, o)
  {
    LessIsTotal(Norm(o.leftExchange), Norm(o.rightExchange));
  }

  /** A key survives being stored and read back: reading strips it, and there is nothing to strip. */
  lemma KeyReadsBack(ruleId: nat, o: Opportunity)
    ensures MonitorKey(ruleId, o) != "" && Strip(MonitorKey(ruleId, o)) == MonitorKey(ruleId, o)
  {
    NormIsStripped(o.marketPairKey);
    NormIsStripped(o.leftExchange);
    NormIsStripped(o.rightExchange);
    KeyTextReadsBack(Decimal(ruleId), Norm(o.marketPairKey), o.symbol, OrderedCodes(Norm(o.leftExchange), Norm(o.rightExchange)));
  }

  /** Pairs of different rules have different keys. */
  lemma KeysTellRules(a: nat, o: Opportunity, b: nat, p: Opportunity)
    requires MonitorKey(a, o) == MonitorKey(b, p)
    ensures a == b
  {
    var x := KeyStartsWithRule(a, o);
    var y := KeyStartsWithRule(b, p);
    SplitAtColon(Decimal(a), x, Decimal(b), y);
    DecimalIsInjective(a, b);
  }

  lemma KeyStartsWithRule(ruleId: nat, o: Opportunity) returns (rest: string)
    ensures MonitorKey(ruleId, o) == Decimal(ruleId) + ":" + rest
  {
    rest := Norm(o.marketPairKey);
    if rest == "" {
      rest := o.symbol + ":" + JoinCodes(OrderedCodes(Norm(o.leftExchange), Norm(o.rightExchange)));
    }
  }

  lemma NormIsStripped(s: string)
    ensures Stripped(Norm(s))
  {
    StripStrips(s);
  }

  lemma KeyTextReadsBack(id: string, marketKey: string, symbol: string, codes: seq<string>)
    requires id != "" && !IsSpace(id[0]) && Stripped(marketKey)
    requires forall i :: 0 <= i < |codes| ==> codes[i] != "" && !IsSpace(codes[i][|codes[i]| - 1])
    ensures marketKey != "" ==> Strip(id + ":" + marketKey) == id + ":" + marketKey
    ensures Strip(id + ":" + symbol + ":" + JoinCodes(codes)) == id + ":" + symbol + ":" + JoinCodes(codes)
  {
    StrippedSum(id + ":", marketKey);
    JoinEndsInCode(codes);
    StrippedSum(id + ":" + symbol + ":", JoinCodes(codes));
  }

  lemma StrippedSum(head: string, tail: string)
    requires head != "" && !IsSpace(head[0]) && head[|head| - 1] == ':'
    requires tail != "" ==> !IsSpace(tail[|tail| - 1])
    ensures Strip(head + tail) == head + tail
  {
    assert tail == "" ==> head + tail == head;
    StripStrips(head + tail);
  }

  lemma {:induction false} JoinEndsInCode(codes: seq<string>)
    requires forall i :: 0 <= i < |codes| ==> codes[i] != "" && !IsSpace(codes[i][|codes[i]| - 1])
    ensures codes != [] ==> JoinCodes(codes) != "" && !IsSpace(JoinCodes(codes)[|JoinCodes(codes)| - 1])
    ensures codes == [] ==> JoinCodes(codes) == ""
  {
    if |codes| > 1 { JoinEndsInCode(codes[1..]); }
  }

  // ------------------------------------------------------------------- gates

  predicate CountsFor(x: Execution, userId: int, ruleId: int) {
    x.userId == userId && x.ruleId == ruleId && x.action == Open && Live(x.status) && Strip(x.pairKey) != ""
  }

  /** `list_active_open_pair_keys_by_rule`, as the set the scan makes of it. */
  function ActiveKeys(executions: seq<Execution>, userId: int, ruleId: int): set<string> {
    set i | 0 <= i < |executions| && CountsFor(executions[i], userId, ruleId) :: Strip(executions[i].pairKey)
  }

  /** The keys that count are those of openings that are neither closed nor failed. */
  lemma ActiveKeysAre(executions: seq<Execution>, userId: int, ruleId: int, key: string)
    ensures key in ActiveKeys(executions, userId, ruleId)
            <==> key != "" && exists e :: 0 <= e < |executions| && IsActiveOpeningOf(executions[e], userId, ruleId, key)
  {
    forall status ensures Live(status) <==> status !in {Closed, Broken} { LiveIff(status); }
    if key != "" && exists e :: 0 <= e < |executions| && IsActiveOpeningOf(executions[e], userId, ruleId, key) {
      var e :| 0 <= e < |executions| && IsActiveOpeningOf(executions[e], userId, ruleId, key);
      assert CountsFor(executions[e], userId, ruleId);
    }
    if key in ActiveKeys(executions, userId, ruleId) {
      var e :| 0 <= e < |executions| && CountsFor(executions[e], userId, ruleId) && Strip(executions[e].pairKey) == key;
      assert IsActiveOpeningOf(executions[e], userId, ruleId, key);
    }
  }

  predicate IsActiveOpeningOf(x: Execution, userId: int, ruleId: int, key: string) {
    x.userId == userId && x.ruleId == ruleId && x.action == Open && x.status !in {Closed, Broken} && Strip(x.pairKey) == key
  }

  predicate IsOpeningOf(executions: seq<Execution>, userId: int, ruleId: int, pairKey: string, e: nat) {
    e < |executions| && executions[e].userId == userId && executions[e].ruleId == ruleId && executions[e].pairKey == pairKey
    && executions[e].action == Open
  }

  /** `get_latest_open_execution_by_pair`. */
  function LatestOpen(executions: seq<Execution>, userId: int, ruleId: int, pairKey: string): (found: Option<nat>)
    ensures found.Some? ==> IsOpeningOf(executions, userId, ruleId, pairKey, found.value)
    ensures forall e: nat :: IsOpeningOf(executions, userId, ruleId, pairKey, e) ==> found.Some? && e <= found.value
  {
    if executions == [] then None
    else
      var last := |executions| - 1;
      if IsOpeningOf(executions, userId, ruleId, pairKey, last) then Some(last)
      else
        assert forall e: nat :: IsOpeningOf(executions, userId, ruleId, pairKey, e) ==> IsOpeningOf(executions[..last], userId, ruleId, pairKey, e);
        LatestOpen(executions[..last], userId, ruleId, pairKey)
  }

  /** `_is_pair_position_balanced`: the sides differ by at most two per cent of the larger one. */
  predicate IsBalanced(held: Exposure) {
    var larger := MaxR(held.left, held.right);
    larger > 0.0 && -MaxR(0.000001, larger * 0.02) <= held.left - held.right <= MaxR(0.000001, larger * 0.02)
  }

  /** `_can_continue_after_interval`. */
  predicate MayContinue(s: Store, userId: int, ruleId: int, pairKey: string, intervalOver: bool) {
    var latest := LatestOpen(s.executions, userId, ruleId, pairKey);
    latest.Some? && s.executions[latest.value].status == Opened ==> IsBalanced(ExposureOf(s, latest.value)) && intervalOver
  }

  function HeldByPair(s: Store, userId: int, ruleId: int, pairKey: string): real {
    var latest := LatestOpen(s.executions, userId, ruleId, pairKey);
    if latest.None? then 0.0 else var held := ExposureOf(s, latest.value); MaxR(held.left, held.right)
  }

  /** The gates an opportunity has to pass; `active` are the keys the scan takes for active. */
  predicate Admitted(s: Store, userId: int, rule: Rule, active: set<string>, o: Opportunity) {
    var key := MonitorKey(rule.id, o);
    && o.wanted
    && (rule.maxPairs > 0 && key !in active ==> |active| < rule.maxPairs)
    && ((userId, key) in s.cooldowns ==> o.cooldownOver)
    && MayContinue(s, userId, rule.id, key, o.intervalOver)
    && (rule.maxPosition > 0.0 ==> HeldByPair(s, userId, rule.id, key) < rule.maxPosition)
  }

  function PlanOf(userId: int, rule: Rule, o: Opportunity): PairPlan {
    PairPlan(userId, rule.id, KeyOfPlan(rule.id, o), o.leftAccount, o.rightAccount, o.left, o.right, rule.orderAmount)
  }

  predicate Full(rule: Rule, active: set<string>) { rule.maxPairs > 0 && |active| >= rule.maxPairs }

  // -------------------------------------------------------------------- scan

  /** What one opportunity leads to: nothing, or a new pair. */
  function Attempt(s: Store, userId: int, rule: Rule, active: set<string>, o: Opportunity): Option<Store> {
    if Admitted(s, userId, rule, active, o) then OpenPair(s, o.market, PlanOf(userId, rule, o)) else None
  }

  /** The store after the rest of a scan. */
  function Scanned(s: Store, userId: int, rule: Rule, active: set<string>, rest: seq<Opportunity>): Store
    decreases |rest|
  {
    if rest == [] then s
    else match Attempt(s, userId, rule, active, rest[0])
      case None => Scanned(s, userId, rule, active, rest[1..])
      case Some(next) =>
        var nowActive := active + {MonitorKey(rule.id, rest[0])};
        if Full(rule, nowActive) then next else Scanned(next, userId, rule, nowActive, rest[1..])
  }

  /** Opening a pair adds its key, and nothing else, to the active keys that are stored. */
  lemma OpenPairAddsKey(s: Store, userId: int, rule: Rule, o: Opportunity)
    requires OpenPair(s, o.market, PlanOf(userId, rule, o)).Some?
    ensures ActiveKeys(OpenPair(s, o.market, PlanOf(userId, rule, o)).value.executions, userId, rule.id)
            == ActiveKeys(s.executions, userId, rule.id) + {MonitorKey(rule.id, o)}
  {
    BuildersAgree(rule.id, o);
    KeyReadsBack(rule.id, o);
    OneMoreKey(s.executions, OpenPair(s, o.market, PlanOf(userId, rule, o)).value.executions, userId, rule.id);
  }

  lemma OneMoreKey(before: seq<Execution>, next: seq<Execution>, userId: int, ruleId: int)
    requires before <= next && |next| == |before| + 1 && CountsFor(next[|before|], userId, ruleId)
    ensures ActiveKeys(next, userId, ruleId) == ActiveKeys(before, userId, ruleId) + {Strip(next[|before|].pairKey)}
  {
    forall key | key in ActiveKeys(before, userId, ruleId) ensures key in ActiveKeys(next, userId, ruleId) {
      var i :| 0 <= i < |before| && CountsFor(before[i], userId, ruleId) && Strip(before[i].pairKey) == key;
      assert next[i] == before[i];
    }
  }

  /** No key is lost, there are at most as many as the cap or as there were, and none is new when the cap is reached. */
  predicate CapKept(rule: Rule, before: set<string>, after: set<string>) {
    && before <= after
    && (rule.maxPairs > 0 ==> |after| <= if |before| > rule.maxPairs then |before| else rule.maxPairs)
    && (Full(rule, before) ==> after == before)
  }

  lemma AttemptKeepsCap(s: Store, userId: int, rule: Rule, o: Opportunity)
    requires Attempt(s, userId, rule, ActiveKeys(s.executions, userId, rule.id), o).Some?
    ensures var before, next := ActiveKeys(s.executions, userId, rule.id), Attempt(s, userId, rule, ActiveKeys(s.executions, userId, rule.id), o).value;
            && ActiveKeys(next.executions, userId, rule.id) == before + {MonitorKey(rule.id, o)}
            && CapKept(rule, before, before + {MonitorKey(rule.id, o)})
  {
    var before, key := ActiveKeys(s.executions, userId, rule.id), MonitorKey(rule.id, o);
    OpenPairAddsKey(s, userId, rule, o);
    if key in before { assert before + {key} == before; }
  }

  /** Over whatever opportunities a rule is scanned, the distinct active pair keys it has afterwards
      are at most its cap or as many as it had before; a rule at its cap opens no new pair, and none is lost. */
  lemma {:induction false} ScanKeepsCap(s: Store, userId: int, rule: Rule, rest: seq<Opportunity>)
    ensures var before := ActiveKeys(s.executions, userId, rule.id);
            CapKept(rule, before, ActiveKeys(Scanned(s, userId, rule, before, rest).executions, userId, rule.id))
    decreases |rest|
  {
    if rest != [] {
      var before := ActiveKeys(s.executions, userId, rule.id);
      match Attempt(s, userId, rule, before, rest[0]) {
        case None => ScanKeepsCap(s, userId, rule, rest[1..]);
        case Some(next) =>
          AttemptKeepsCap(s, userId, rule, rest[0]);
          ScanKeepsCap(next, userId, rule, rest[1..]);
      }
    }
  }

  // ------------------------------------------------------------- what it takes

  /** The sides of a pair are balanced, once the larger one is not tiny, exactly when the smaller one has 98 per cent of it. */
  lemma BalancedIff(held: Exposure)
    requires held.left >= 0.0 && held.right >= 0.0
    ensures held.left >= held.right && held.left >= 0.00005 ==> (IsBalanced(held) <==> held.right >= 0.98 * held.left)
    ensures held.right >= held.left && held.right >= 0.00005 ==> (IsBalanced(held) <==> held.left >= 0.98 * held.right)
    ensures held.left == held.right == 0.0 ==> !IsBalanced(held)
  {
  }

  /** The newest opening of the pair does not stand in the way: if it is open, its sides are balanced and the interval has
      passed; and neither of them has reached the position limit. */
  predicate LeavesRoom(s: Store, rule: Rule, e: nat, intervalOver: bool)
    requires IsExecution(s, e)
  {
    var held := ExposureOf(s, e);
    && (s.executions[e].status == Opened ==> IsBalanced(held) && intervalOver)
    && (rule.maxPosition > 0.0 ==> held.left < rule.maxPosition && held.right < rule.maxPosition)
  }

  /** The pair of an opportunity: under the key that the monitor looks up, with the accounts and markets of its sides and the
      amount of the rule. */
  function PlanFor(userId: int, rule: Rule, o: Opportunity): PairPlan {
    PairPlan(userId, rule.id, MonitorKey(rule.id, o), o.leftAccount, o.rightAccount, o.left, o.right, rule.orderAmount)
  }

  ghost predicate IsNewestOpening(executions: seq<Execution>, userId: int, ruleId: int, pairKey: string, e: nat) {
    && IsOpeningOf(executions, userId, ruleId, pairKey, e)
    && forall other: nat :: IsOpeningOf(executions, userId, ruleId, pairKey, other) ==> other <= e
  }

  /** An opportunity opens a pair exactly when the strategy wants it, its key is active already or there is room for one more, it
      is not cooling down, its newest opening leaves room, and both orders can be made. */
  lemma AttemptIff(s: Store, userId: int, rule: Rule, active: set<string>, o: Opportunity)
    ensures var key := MonitorKey(rule.id, o);
            Attempt(s, userId, rule, active, o).Some?
            <==> && o.wanted
                 && (rule.maxPairs <= 0 || key in active || |active| < rule.maxPairs)
                 && ((userId, key) !in s.cooldowns || o.cooldownOver)
                 && (forall e: nat :: IsNewestOpening(s.executions, userId, rule.id, key, e) ==> LeavesRoom(s, rule, e, o.intervalOver))
                 && OpenPair(s, o.market, PlanFor(userId, rule, o)).Some?
    ensures Attempt(s, userId, rule, active, o).Some? ==> Attempt(s, userId, rule, active, o) == OpenPair(s, o.market, PlanFor(userId, rule, o))
  {
    BuildersAgree(rule.id, o);
    var key := MonitorKey(rule.id, o);
    var latest := LatestOpen(s.executions, userId, rule.id, key);
    if latest.Some? {
      assert IsNewestOpening(s.executions, userId, rule.id, key, latest.value);
      forall e: nat | IsNewestOpening(s.executions, userId, rule.id, key, e) ensures e == latest.value {}
    }
  }

  /** An execution that a scan adds. */
  predicate ComesFrom(s: Store, userId: int, rule: Rule, x: Execution, o: Opportunity) {
    && x.userId == userId && x.ruleId == rule.id && x.action == Open && x.pairKey == MonitorKey(rule.id, o)
    && x.left == o.left && x.right == o.right && x.plannedAmount == rule.orderAmount
    && o.wanted && ((userId, x.pairKey) in s.cooldowns ==> o.cooldownOver)
  }

  ghost predicate ComesFromSome(s: Store, userId: int, rule: Rule, x: Execution, rest: seq<Opportunity>) {
    exists i :: 0 <= i < |rest| && ComesFrom(s, userId, rule, x, rest[i])
  }

  /** Whatever a scan opens, it opens for an opportunity that the strategy wants and whose pair is not cooling down, with the
      amount of the rule, and it changes no row there was. */
  lemma {:induction false} ScanOpensWhatIsWanted(s: Store, userId: int, rule: Rule, active: set<string>, rest: seq<Opportunity>)
    ensures var t := Scanned(s, userId, rule, active, rest);
            && s.executions <= t.executions && s.legs <= t.legs && t.cooldowns == s.cooldowns
            && t.positions == s.positions && t.fills == s.fills
            && forall k :: |s.executions| <= k < |t.executions| ==> ComesFromSome(s, userId, rule, t.executions[k], rest)
    decreases |rest|
  {
    if rest != [] {
      var t := Scanned(s, userId, rule, active, rest);
      match Attempt(s, userId, rule, active, rest[0]) {
        case None =>
          ScanOpensWhatIsWanted(s, userId, rule, active, rest[1..]);
          forall k | |s.executions| <= k < |t.executions| ensures ComesFromSome(s, userId, rule, t.executions[k], rest) {
            LaterOpportunity(s, userId, rule, t.executions[k], rest);
          }
        case Some(next) =>
          var x, nowActive := next.executions[|s.executions|], active + {MonitorKey(rule.id, rest[0])};
          BuildersAgree(rule.id, rest[0]);
          assert ComesFrom(s, userId, rule, x, rest[0]);
          if !Full(rule, nowActive) { ScanOpensWhatIsWanted(next, userId, rule, nowActive, rest[1..]); }
          forall k | |s.executions| <= k < |t.executions| ensures ComesFromSome(s, userId, rule, t.executions[k], rest) {
            if k > |s.executions| { FromNext(s, next, userId, rule, t.executions[k], rest); }
          }
      }
    }
  }

  lemma LaterOpportunity(s: Store, userId: int, rule: Rule, x: Execution, rest: seq<Opportunity>)
    requires rest != [] && ComesFromSome(s, userId, rule, x, rest[1..])
    ensures ComesFromSome(s, userId, rule, x, rest)
  {
    var i :| 0 <= i < |rest[1..]| && ComesFrom(s, userId, rule, x, rest[1..][i]);
    assert ComesFrom(s, userId, rule, x, rest[i + 1]);
  }

  lemma FromNext(s: Store, next: Store, userId: int, rule: Rule, x: Execution, rest: seq<Opportunity>)
    requires rest != [] && next.cooldowns == s.cooldowns && ComesFromSome(next, userId, rule, x, rest[1..])
    ensures ComesFromSome(s, userId, rule, x, rest)
  {
    var i :| 0 <= i < |rest[1..]| && ComesFrom(next, userId, rule, x, rest[1..][i]);
    assert ComesFrom(s, userId, rule, x, rest[i + 1]);
  }

  /** A scan that has opened something and is full has ended. */
  predicate HasEnded(s: Store, t: Store, userId: int, rule: Rule) {
    |t.executions| > |s.executions| && Full(rule, ActiveKeys(t.executions, userId, rule.id))
  }

  /** The store `t` of the scan so far, and what one opportunity more makes of it. */
  function TryNext(s: Store, t: Store, userId: int, rule: Rule, o: Opportunity): Store {
    if HasEnded(s, t, userId, rule) then t
    else Attempt(t, userId, rule, ActiveKeys(t.executions, userId, rule.id), o).GetOr(t)
  }

  /** A scan takes its opportunities in turn: unless it has ended before, the last one is tried on the store that the ones before
      it have left, so none is passed over. */
  lemma {:induction false} ScanInTurn(s: Store, userId: int, rule: Rule, active: set<string>, rest: seq<Opportunity>, t: Store)
    requires rest != [] && active == ActiveKeys(s.executions, userId, rule.id)
    requires t == Scanned(s, userId, rule, active, rest[..|rest| - 1])
    ensures Scanned(s, userId, rule, active, rest) == TryNext(s, t, userId, rule, rest[|rest| - 1])
    decreases |rest|, 1
  {
    var before, o, later, last := rest[..|rest| - 1], rest[0], rest[1..], rest[|rest| - 1];
    if |rest| == 1 {
      assert before == [] && later == [];
    } else {
      assert before[0] == o && before[1..] == later[..|later| - 1] && later[|later| - 1] == last;
      match Attempt(s, userId, rule, active, o) {
        case None => ScanInTurn(s, userId, rule, active, later, t);
        case Some(next) => AfterOpening(s, userId, rule, active, rest, before[1..], t, next);
      }
    }
  }

  lemma {:induction false} AfterOpening(s: Store, userId: int, rule: Rule, active: set<string>, rest: seq<Opportunity>,
                                        between: seq<Opportunity>, t: Store, next: Store)
    requires |rest| > 1 && active == ActiveKeys(s.executions, userId, rule.id) && between == rest[1..][..|rest| - 2]
    requires Attempt(s, userId, rule, active, rest[0]) == Some(next)
    requires var nowActive := active + {MonitorKey(rule.id, rest[0])};
             t == if Full(rule, nowActive) then next else Scanned(next, userId, rule, nowActive, between)
    ensures Scanned(s, userId, rule, active, rest) == TryNext(s, t, userId, rule, rest[|rest| - 1])
    decreases |rest|, 0
  {
    var nowActive := active + {MonitorKey(rule.id, rest[0])};
    OpenPairAddsKey(s, userId, rule, rest[0]);
    if !Full(rule, nowActive) {
      ScanInTurn(next, userId, rule, nowActive, rest[1..], t);
      ScanOpensWhatIsWanted(next, userId, rule, nowActive, between);
      SameEnd(s, next, t, userId, rule);
      assert rest[1..][|rest| - 2] == rest[|rest| - 1];
    }
  }

  lemma SameEnd(s: Store, next: Store, t: Store, userId: int, rule: Rule)
    requires |next.executions| == |s.executions| + 1 && next.executions <= t.executions
    requires !Full(rule, ActiveKeys(next.executions, userId, rule.id))
    ensures HasEnded(s, t, userId, rule) == HasEnded(next, t, userId, rule)
  {
    if |t.executions| == |next.executions| { assert t.executions == next.executions; }
  }

  /** The cooldown that a failure leaves is the one that the scan asks for: until it is over, no opportunity with the key of the
      execution that failed opens a pair for that user. */
  lemma CooldownBlocks(s: Store, x: Execution, rule: Rule, active: set<string>, o: Opportunity)
    requires x.userId > 0 && x.pairKey == MonitorKey(rule.id, o) && !o.cooldownOver
    ensures (x.userId, Strip(x.pairKey)) in Cooldown(s, x).cooldowns
    ensures Attempt(Cooldown(s, x), x.userId, rule, active, o) == None
  {
    KeyReadsBack(rule.id, o);
  }

  class OpportunityMonitor {
    const repo: Repository
    const planner: PlanService

    constructor (planner: PlanService)
      ensures this.planner == planner && repo == planner.repo
    {
      this.planner, repo := planner, planner.repo;
    }

    /** `_scan_strategy_opportunities`: the set of active keys is read once and then kept up in memory, and stays the set
        that is stored. */
    method ScanStrategyOpportunities(userId: int, rule: Rule, opportunities: seq<Opportunity>)
      returns (created: nat, activeKeys: set<string>)
      requires planner.repo == repo
      modifies repo
      ensures repo.Rows() == Scanned(old(repo.Rows()), userId, rule, ActiveKeys(old(repo.executions), userId, rule.id), opportunities)
      ensures activeKeys == ActiveKeys(repo.executions, userId, rule.id)
      ensures |repo.executions| == |old(repo.executions)| + created
    {
      activeKeys := ActiveKeys(repo.executions, userId, rule.id);
      var currentPairs := |activeKeys|;
      created := 0;
      ghost var start := activeKeys;
      for i := 0 to |opportunities|
        invariant activeKeys == ActiveKeys(repo.executions, userId, rule.id) && currentPairs == |activeKeys|
        invariant |repo.executions| == |old(repo.executions)| + created
        invariant Scanned(old(repo.Rows()), userId, rule, start, opportunities)
                  == Scanned(repo.Rows(), userId, rule, activeKeys, opportunities[i..])
      {
        var o := opportunities[i];
        assert opportunities[i..][0] == o && opportunities[i..][1..] == opportunities[i + 1..];
        var admitted := PassesGates(userId, rule, activeKeys, currentPairs, o);
        if admitted {
          var isOpened := TryOpen(userId, rule, o);
          if isOpened {
            var pairKey := MonitorKey(rule.id, o);
            if pairKey !in activeKeys {
              activeKeys := activeKeys + {pairKey};
              currentPairs := |activeKeys|;
            } else {
              assert activeKeys == activeKeys + {pairKey};
            }
            created := created + 1;
            if rule.maxPairs > 0 && currentPairs >= rule.maxPairs { return; }
          }
        }
      }
    }

    method PassesGates(userId: int, rule: Rule, activeKeys: set<string>, currentPairs: nat, o: Opportunity) returns (passes: bool)
      requires currentPairs == |activeKeys|
      ensures passes == Admitted(repo.Rows(), userId, rule, activeKeys, o)
    {
      if !o.wanted { return false; }
      var pairKey := MonitorKey(rule.id, o);
      var isExisting := pairKey in activeKeys;
      if rule.maxPairs > 0 && !isExisting && currentPairs >= rule.maxPairs { return false; }
      if (userId, pairKey) in repo.cooldowns && !o.cooldownOver { return false; }
      var latest := LatestOpen(repo.executions, userId, rule.id, pairKey);
      if latest.Some? && repo.executions[latest.value].status == Opened {
        if !IsBalanced(ExposureOf(repo.Rows(), latest.value)) { return false; }
        if !o.intervalOver { return false; }
      }
      if rule.maxPosition > 0.0 && HeldByPair(repo.Rows(), userId, rule.id, pairKey) >= rule.maxPosition { return false; }
      return true;
    }

    method TryOpen(userId: int, rule: Rule, o: Opportunity) returns (isOpened: bool)
      requires planner.repo == repo
      modifies repo
      ensures var result := OpenPair(old(repo.Rows()), o.market, PlanOf(userId, rule, o));
              isOpened == result.Some? && repo.Rows() == result.GetOr(old(repo.Rows()))
      ensures |repo.executions| == |old(repo.executions)| + if isOpened then 1 else 0
      ensures ActiveKeys(repo.executions, userId, rule.id)
              == ActiveKeys(old(repo.executions), userId, rule.id) + if isOpened then {MonitorKey(rule.id, o)} else {}
    {
      ghost var before := repo.Rows();
      var id := planner.CreateOpenExecution(o.market, PlanOf(userId, rule, o));
      if id.Some? { OpenPairAddsKey(before, userId, rule, o); }
      return id.Some?;
    }
  }
}

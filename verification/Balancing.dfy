/** Balancing a user's accounts again and again (`account_auto_transfer_service`): every time the real amounts are shown, read
    back and planned with, and the planned amount is moved between the real accounts. */
module Balancing {
  import opened Prelude
  import opened Amounts
  import opened FundTargets
  import opened TransferPlanning

  // -------------------------------------------------------- what the planner sees

  /** An account's real figures. */
  function Real(a: Account, pool: int, triggerRatio: real): Funds {
    Funds(a.id, a.available, a.current, Target(a, pool), Trigger(a, pool, triggerRatio))
  }

  function Sees(f: Funds, up: iset<nat>): Funds {
    Funds(f.id, Shown(f.available, up), Shown(f.current, up), Shown(f.target, up), Shown(f.trigger, up))
  }

  function RealAll(accounts: seq<Account>, pool: int, triggerRatio: real): (rows: seq<Funds>)
    ensures |rows| == |accounts| && forall i :: 0 <= i < |accounts| ==> rows[i] == Real(accounts[i], pool, triggerRatio)
  {
    seq(|accounts|, i requires 0 <= i < |accounts| => Real(accounts[i], pool, triggerRatio))
  }

  /** The figures that the planner reads back. */
  function SeenAll(accounts: seq<Account>, pool: int, triggerRatio: real, up: iset<nat>): (rows: seq<Funds>)
    ensures |rows| == |accounts| && forall i :: 0 <= i < |accounts| ==> rows[i] == Sees(Real(accounts[i], pool, triggerRatio), up)
  {
    seq(|accounts|, i requires 0 <= i < |accounts| => Sees(Real(accounts[i], pool, triggerRatio), up))
  }

  lemma {:induction false} RowIsSeen(a: Account, pool: int, triggerRatio: real, up: iset<nat>)
    ensures ReadRow(Shows(a, pool, triggerRatio, up)) == Some(Sees(Real(a, pool, triggerRatio), up))
  {
    ParseFormat(a.available, up);
    ParseFormat(a.current, up);
    ParseFormat(Target(a, pool), up);
    ParseFormat(Trigger(a, pool, triggerRatio), up);
  }

  lemma {:induction false} OneMoreIsRead(rows: seq<BalanceRow>, row: BalanceRow, figures: seq<Funds>, f: Funds)
    requires ReadRows(rows) == Some(figures) && ReadRow(row) == Some(f)
    ensures ReadRows(rows + [row]) == Some(figures + [f])
  {
    assert (rows + [row])[..|rows|] == rows;
  }

  lemma {:induction false} NextRowIsRead(rows: seq<BalanceRow>, figures: seq<Funds>, a: Account, pool: int, triggerRatio: real, up: iset<nat>)
    requires ReadRows(rows) == Some(figures)
    ensures ReadRows(rows + [Shows(a, pool, triggerRatio, up)]) == Some(figures + [Sees(Real(a, pool, triggerRatio), up)])
  {
    RowIsSeen(a, pool, triggerRatio, up);
    OneMoreIsRead(rows, Shows(a, pool, triggerRatio, up), figures, Sees(Real(a, pool, triggerRatio), up));
  }

  lemma {:induction false} SeenAppend(accounts: seq<Account>, a: Account, pool: int, triggerRatio: real, up: iset<nat>)
    ensures SeenAll(accounts + [a], pool, triggerRatio, up) == SeenAll(accounts, pool, triggerRatio, up) + [Sees(Real(a, pool, triggerRatio), up)]
  {
  }

  lemma {:induction false} ShowAppend(accounts: seq<Account>, a: Account, pool: int, triggerRatio: real, up: iset<nat>)
    ensures ShowAll(accounts + [a], pool, triggerRatio, up) == ShowAll(accounts, pool, triggerRatio, up) + [Shows(a, pool, triggerRatio, up)]
  {
    assert (accounts + [a])[..|accounts|] == accounts;
  }

  /** Reading back a whole balance table. */
  lemma {:induction false} TableIsSeen(accounts: seq<Account>, pool: int, triggerRatio: real, up: iset<nat>)
    ensures ReadRows(ShowAll(accounts, pool, triggerRatio, up)) == Some(SeenAll(accounts, pool, triggerRatio, up))
  {
    if accounts != [] {
      var before, a := accounts[..|accounts| - 1], accounts[|accounts| - 1];
      assert accounts == before + [a];
      TableIsSeen(before, pool, triggerRatio, up);
      NextRowIsRead(ShowAll(before, pool, triggerRatio, up), SeenAll(before, pool, triggerRatio, up), a, pool, triggerRatio, up);
      SeenAppend(before, a, pool, triggerRatio, up);
      ShowAppend(before, a, pool, triggerRatio, up);
    }
  }

  // ------------------------------------------------------------------- transfers

  function Paid(a: Account, amount: int): Account {
    a.(available := a.available + amount, current := a.current + amount)
  }

  datatype Hop = Hop(from: nat, to: nat)

  predicate ValidHop(accounts: seq<Account>, h: Hop) {
    h.from < |accounts| && h.to < |accounts| && h.from != h.to
  }

  /** The real accounts after a transfer. */
  function Transferred(accounts: seq<Account>, h: Hop, amount: int): seq<Account>
    requires ValidHop(accounts, h)
  {
    accounts[h.from := Paid(accounts[h.from], -amount)][h.to := Paid(accounts[h.to], amount)]
  }

  function SeenAt(accounts: seq<Account>, i: nat, triggerRatio: real, up: iset<nat>): Funds
    requires i < |accounts|
  {
    Sees(RealAt(accounts, i, triggerRatio), up)
  }

  function RealAt(accounts: seq<Account>, i: nat, triggerRatio: real): Funds
    requires i < |accounts|
  {
    Real(accounts[i], Pool(accounts), triggerRatio)
  }

  /** The transfer is on the list that is planned from the balance table; whichever listed one is taken, for reasons of
      routes and frozen accounts, is covered. */
  predicate PlannedHop(accounts: seq<Account>, h: Hop, triggerRatio: real, up: iset<nat>) {
    ValidHop(accounts, h)
    && var source, target := SeenAt(accounts, h.from, triggerRatio, up), SeenAt(accounts, h.to, triggerRatio, up);
       source.InSurplus() && target.InNeed() && Helps(source, target)
  }

  function HopAmount(accounts: seq<Account>, h: Hop, triggerRatio: real, up: iset<nat>): int
    requires ValidHop(accounts, h)
  {
    Amount(SeenAt(accounts, h.from, triggerRatio, up), SeenAt(accounts, h.to, triggerRatio, up))
  }

  function Hopped(accounts: seq<Account>, h: Hop, triggerRatio: real, up: iset<nat>): seq<Account>
    requires ValidHop(accounts, h)
  {
    Transferred(accounts, h, HopAmount(accounts, h, triggerRatio, up))
  }

  /** It is listed exactly when the pair of accounts is: what is read from the table is what is seen. */
  lemma {:induction false} HopIsOnTheList(accounts: seq<Account>, h: Hop, triggerRatio: real, up: iset<nat>)
    requires PlannedHop(accounts, h, triggerRatio, up)
    ensures Candidate(accounts[h.from].id, accounts[h.to].id, HopAmount(accounts, h, triggerRatio, up))
            in Plans(SeenAll(accounts, Pool(accounts), triggerRatio, up))
  {
    var rows := SeenAll(accounts, Pool(accounts), triggerRatio, up);
    var source, target := rows[h.from], rows[h.to];
    assert Planned(rows, source, target);
    PlansAreThePairs(rows, Candidate(source.id, target.id, Amount(source, target)));
  }

  // ------------------------------------------------------------- conservation

  function Holdings(accounts: seq<Account>): int {
    if accounts == [] then 0 else Holdings(accounts[..|accounts| - 1]) + accounts[|accounts| - 1].current
  }

  lemma {:induction false} UpdateHoldings(accounts: seq<Account>, i: nat, a: Account, after: seq<Account>)
    requires i < |accounts| && after == accounts[i := a]
    ensures Pool(after) == Pool(accounts) - accounts[i].available + a.available
    ensures Holdings(after) == Holdings(accounts) - accounts[i].current + a.current
  {
    var n := |accounts| - 1;
    if i < n {
      UpdateHoldings(accounts[..n], i, a, after[..n]);
    } else {
      assert after[..n] == accounts[..n];
    }
  }

  /** A transfer keeps what the accounts have together, so no target of a configured account moves. */
  lemma {:induction false} TransferConserves(accounts: seq<Account>, h: Hop, amount: int, after: seq<Account>)
    requires ValidHop(accounts, h) && after == Transferred(accounts, h, amount)
    ensures |after| == |accounts| && Pool(after) == Pool(accounts) && Holdings(after) == Holdings(accounts)
  {
    var once := accounts[h.from := Paid(accounts[h.from], -amount)];
    UpdateHoldings(accounts, h.from, Paid(accounts[h.from], -amount), once);
    UpdateHoldings(once, h.to, Paid(accounts[h.to], amount), after);
  }

  /** A run of the balancer: each transfer is planned from the table of the accounts as the earlier ones left them. */
  predicate IsRun(accounts: seq<Account>, run: seq<Hop>, triggerRatio: real, up: iset<nat>)
    decreases |run|
  {
    run == []
    || (PlannedHop(accounts, run[0], triggerRatio, up)
        && IsRun(Hopped(accounts, run[0], triggerRatio, up), run[1..], triggerRatio, up))
  }

  function AfterRun(accounts: seq<Account>, run: seq<Hop>, triggerRatio: real, up: iset<nat>): seq<Account>
    requires IsRun(accounts, run, triggerRatio, up)
    decreases |run|
  {
    if run == [] then accounts else AfterRun(Hopped(accounts, run[0], triggerRatio, up), run[1..], triggerRatio, up)
  }

  /** Every run conserves the pool and the total holdings. */
  lemma {:induction false} RunsConserve(accounts: seq<Account>, run: seq<Hop>, triggerRatio: real, up: iset<nat>)
    requires IsRun(accounts, run, triggerRatio, up)
    ensures var after := AfterRun(accounts, run, triggerRatio, up);
            |after| == |accounts| && Pool(after) == Pool(accounts) && Holdings(after) == Holdings(accounts)
    decreases |run|
  {
    if run != [] {
      var next := Hopped(accounts, run[0], triggerRatio, up);
      TransferConserves(accounts, run[0], HopAmount(accounts, run[0], triggerRatio, up), next);
      RunsConserve(next, run[1..], triggerRatio, up);
    }
  }

  // ----------------------------------------------------------- the law of one step

  /** The target of a configured account stays where it is as long as the pool does; one without a share follows its
      balance, if there is a pool. */
  predicate Fixed(a: Account, pool: int) { Configured(a) || pool <= 0 }

  /** The real figures of an account after a payment. */
  lemma {:induction false} PaidFigures(a: Account, pool: int, triggerRatio: real, amount: int)
    ensures var f, g := Real(a, pool, triggerRatio), Real(Paid(a, amount), pool, triggerRatio);
            && g.available == f.available + amount && g.current == f.current + amount
            && g.target == f.target + (if Fixed(a, pool) then 0 else amount)
            && g.Deviation() == f.Deviation() + if Fixed(a, pool) then amount else 0
  {
  }

  /** The real figures after a transfer: two rows change, by the amount where the target stays. */
  lemma {:induction false} FiguresAfter(accounts: seq<Account>, h: Hop, amount: int, after: seq<Account>, triggerRatio: real, before: seq<Funds>, now: seq<Funds>)
    requires ValidHop(accounts, h) && after == Transferred(accounts, h, amount)
    requires before == RealAll(accounts, Pool(accounts), triggerRatio) && now == RealAll(after, Pool(accounts), triggerRatio)
    ensures |before| == |now| == |accounts| && now == Replaced(before, h.from, now[h.from], h.to, now[h.to])
    ensures now[h.from].Deviation() == before[h.from].Deviation() - if Fixed(accounts[h.from], Pool(accounts)) then amount else 0
    ensures now[h.to].Deviation() == before[h.to].Deviation() + if Fixed(accounts[h.to], Pool(accounts)) then amount else 0
  {
    PaidFigures(accounts[h.from], Pool(accounts), triggerRatio, -amount);
    PaidFigures(accounts[h.to], Pool(accounts), triggerRatio, amount);
  }

  /** Moving `amount` between two accounts whose targets stay lowers the real imbalance if and only if there is a real surplus
      and a real need and the amount is below their sum; it lowers it by twice the amount when it exceeds neither. */
  lemma {:induction false} StepLowersIff(accounts: seq<Account>, h: Hop, amount: int, after: seq<Account>, triggerRatio: real, before: seq<Funds>, now: seq<Funds>)
    requires ValidHop(accounts, h) && amount > 0 && after == Transferred(accounts, h, amount)
    requires Fixed(accounts[h.from], Pool(accounts)) && Fixed(accounts[h.to], Pool(accounts))
    requires before == RealAll(accounts, Pool(accounts), triggerRatio) && now == RealAll(after, Pool(after), triggerRatio)
    ensures var surplus, need := before[h.from].Deviation(), -before[h.to].Deviation();
            && (Imbalance(now) < Imbalance(before) <==> surplus > 0 && need > 0 && amount < surplus + need)
            && (amount <= surplus && amount <= need ==> Imbalance(now) == Imbalance(before) - 2 * amount)
  {
    TransferConserves(accounts, h, amount, after);
    FiguresAfter(accounts, h, amount, after, triggerRatio, before, now);
    UpdateTwo(before, h.from, h.to, now[h.from], now[h.to], now);
  }

  /** When the destination is an account without a share, its target moves along, and only the source counts. */
  lemma {:induction false} StepToUnconfiguredLowersIff(accounts: seq<Account>, h: Hop, amount: int, after: seq<Account>, triggerRatio: real, before: seq<Funds>,
                                    now: seq<Funds>)
    requires ValidHop(accounts, h) && amount > 0 && after == Transferred(accounts, h, amount)
    requires Fixed(accounts[h.from], Pool(accounts)) && !Fixed(accounts[h.to], Pool(accounts))
    requires before == RealAll(accounts, Pool(accounts), triggerRatio) && now == RealAll(after, Pool(after), triggerRatio)
    ensures var surplus := before[h.from].Deviation();
            && (Imbalance(now) < Imbalance(before) <==> amount < 2 * surplus)
            && (amount <= surplus ==> Imbalance(now) == Imbalance(before) - amount)
  {
    TransferConserves(accounts, h, amount, after);
    FiguresAfter(accounts, h, amount, after, triggerRatio, before, now);
    UpdateTwo(before, h.from, h.to, now[h.from], now[h.to], now);
  }

  /** An account without a share never gives anything while there is a pool. */
  lemma {:induction false} SourcesAreFixed(accounts: seq<Account>, h: Hop, triggerRatio: real, up: iset<nat>)
    requires PlannedHop(accounts, h, triggerRatio, up)
    ensures Fixed(accounts[h.from], Pool(accounts))
  {
  }

  // ---------------------------------------------------------- seen and real figures

  /** How far the display of amounts below `bound` can be off. */
  function Blur(bound: int): int { if bound <= 1000 then 0 else if bound <= 1000000 then 50 else 5000 }

  /** A planned transfer leaves its real source at or above its target exactly when the surplus or the need that was seen is at
      most the real surplus, and its real destination at or below its target exactly when one of them is at most the real
      need. */
  lemma {:induction false} SourceAndDestinationIff(accounts: seq<Account>, h: Hop, triggerRatio: real, up: iset<nat>, after: seq<Account>)
    requires PlannedHop(accounts, h, triggerRatio, up) && after == Hopped(accounts, h, triggerRatio, up)
    ensures |after| == |accounts|
    ensures var surplus, need := RealAt(accounts, h.from, triggerRatio).Deviation(), -RealAt(accounts, h.to, triggerRatio).Deviation();
            var seenSurplus, seenNeed := SeenAt(accounts, h.from, triggerRatio, up).Deviation(), -SeenAt(accounts, h.to, triggerRatio, up).Deviation();
            && (RealAt(after, h.from, triggerRatio).Deviation() >= 0 <==> seenSurplus <= surplus || seenNeed <= surplus)
            && (RealAt(after, h.to, triggerRatio).Deviation() <= 0
                <==> if Fixed(accounts[h.to], Pool(accounts)) then seenSurplus <= need || seenNeed <= need else true)
  {
    var pool, amount := Pool(accounts), HopAmount(accounts, h, triggerRatio, up);
    TransferConserves(accounts, h, amount, after);
    SourcesAreFixed(accounts, h, triggerRatio, up);
    PaidFigures(accounts[h.from], pool, triggerRatio, -amount);
    PaidFigures(accounts[h.to], pool, triggerRatio, amount);
  }

  lemma {:induction false} SeenDeviation(f: Funds, up: iset<nat>, bound: int)
    requires f.available < bound && f.current < bound && f.target < bound
    ensures -2 * Blur(bound) <= Sees(f, up).Deviation() - f.Deviation() <= 2 * Blur(bound)
  {
    ShownIsClose(f.available, up);
    ShownIsClose(f.current, up);
    ShownIsClose(f.target, up);
  }

  /** Neither side is missed by more than two display errors: nothing below a thousand, 100 below a million, 10000 above. */
  lemma {:induction false} MissesAreBounded(accounts: seq<Account>, h: Hop, triggerRatio: real, up: iset<nat>, after: seq<Account>, bound: int)
    requires PlannedHop(accounts, h, triggerRatio, up) && after == Hopped(accounts, h, triggerRatio, up)
    requires forall i :: i in {h.from, h.to} ==>
               var f := RealAt(accounts, i, triggerRatio); f.available < bound && f.current < bound && f.target < bound
    ensures |after| == |accounts|
    ensures RealAt(after, h.from, triggerRatio).Deviation() >= -2 * Blur(bound)
    ensures RealAt(after, h.to, triggerRatio).Deviation() <= 2 * Blur(bound)
  {
    var pool, amount := Pool(accounts), HopAmount(accounts, h, triggerRatio, up);
    TransferConserves(accounts, h, amount, after);
    SourcesAreFixed(accounts, h, triggerRatio, up);
    PaidFigures(accounts[h.from], pool, triggerRatio, -amount);
    PaidFigures(accounts[h.to], pool, triggerRatio, amount);
    SeenDeviation(RealAt(accounts, h.from, triggerRatio), up, bound);
    SeenDeviation(RealAt(accounts, h.to, triggerRatio), up, bound);
  }

  // --------------------------------------------------------------- runs that end

  /** The figures are read back as they are. */
  predicate ShownExactly(f: Funds, up: iset<nat>) {
    Shown(f.available, up) == f.available && Shown(f.current, up) == f.current && Shown(f.target, up) == f.target
  }

  predicate ExactHop(accounts: seq<Account>, h: Hop, triggerRatio: real, up: iset<nat>) {
    ValidHop(accounts, h) && ShownExactly(RealAt(accounts, h.from, triggerRatio), up) && ShownExactly(RealAt(accounts, h.to, triggerRatio), up)
  }

  lemma {:induction false} ExactHopLowers(accounts: seq<Account>, h: Hop, triggerRatio: real, up: iset<nat>, after: seq<Account>)
    requires PlannedHop(accounts, h, triggerRatio, up) && ExactHop(accounts, h, triggerRatio, up)
    requires after == Hopped(accounts, h, triggerRatio, up)
    ensures Imbalance(RealAll(after, Pool(after), triggerRatio)) < Imbalance(RealAll(accounts, Pool(accounts), triggerRatio))
  {
    var amount := HopAmount(accounts, h, triggerRatio, up);
    var before, now := RealAll(accounts, Pool(accounts), triggerRatio), RealAll(after, Pool(after), triggerRatio);
    SourcesAreFixed(accounts, h, triggerRatio, up);
    if Fixed(accounts[h.to], Pool(accounts)) {
      StepLowersIff(accounts, h, amount, after, triggerRatio, before, now);
    } else {
      StepToUnconfiguredLowersIff(accounts, h, amount, after, triggerRatio, before, now);
    }
  }

  /** All amounts and targets are multiples of ten thousand. */
  ghost predicate OnGrid(accounts: seq<Account>, triggerRatio: real) {
    forall i :: 0 <= i < |accounts| ==> IsRound(Real(accounts[i], Pool(accounts), triggerRatio))
  }

  predicate IsRound(f: Funds) { f.available % 10000 == 0 && f.current % 10000 == 0 && f.target % 10000 == 0 }

  /** No amount is negative, and together they stay below a thousand, as does every target. */
  ghost predicate IsSmall(accounts: seq<Account>, triggerRatio: real) {
    && 0 <= Pool(accounts) < 1000 && Holdings(accounts) < 1000
    && forall i :: 0 <= i < |accounts| ==> IsModest(Real(accounts[i], Pool(accounts), triggerRatio))
  }

  predicate IsModest(f: Funds) { f.available >= 0 && f.current >= 0 && 0 <= f.target < 1000 }

  lemma {:induction false} RoundIsExact(v: int, up: iset<nat>)
    requires v % 10000 == 0
    ensures Shown(v, up) == v
  {
    if v >= 1000000 {
      NearestOfMultiple(v / 10000, 10000, up);
    } else if v >= 1000 {
      NearestOfMultiple(v / 10000 * 100, 100, up);
    }
  }

  lemma {:induction false} PartsAreBelow(accounts: seq<Account>, i: nat)
    requires i < |accounts| && forall k :: 0 <= k < |accounts| ==> accounts[k].available >= 0 && accounts[k].current >= 0
    ensures 0 <= accounts[i].available <= Pool(accounts) && 0 <= accounts[i].current <= Holdings(accounts)
  {
    var n := |accounts| - 1;
    if i < n { PartsAreBelow(accounts[..n], i); } else { SumsArePositive(accounts[..n]); }
  }

  lemma {:induction false} SumsArePositive(accounts: seq<Account>)
    requires forall k :: 0 <= k < |accounts| ==> accounts[k].available >= 0 && accounts[k].current >= 0
    ensures Pool(accounts) >= 0 && Holdings(accounts) >= 0
  {
    if accounts != [] { SumsArePositive(accounts[..|accounts| - 1]); }
  }

  lemma {:induction false} SmallIsExact(accounts: seq<Account>, triggerRatio: real, up: iset<nat>, i: nat)
    requires IsSmall(accounts, triggerRatio) && i < |accounts|
    ensures ShownExactly(RealAt(accounts, i, triggerRatio), up)
  {
    forall k | 0 <= k < |accounts| ensures accounts[k].available >= 0 && accounts[k].current >= 0 {
      assert IsModest(Real(accounts[k], Pool(accounts), triggerRatio));
    }
    PartsAreBelow(accounts, i);
    assert IsModest(Real(accounts[i], Pool(accounts), triggerRatio));
  }

  lemma {:induction false} GridIsExact(accounts: seq<Account>, triggerRatio: real, up: iset<nat>, i: nat)
    requires OnGrid(accounts, triggerRatio) && i < |accounts|
    ensures ShownExactly(RealAt(accounts, i, triggerRatio), up)
  {
    var f := RealAt(accounts, i, triggerRatio);
    assert IsRound(Real(accounts[i], Pool(accounts), triggerRatio));
    RoundIsExact(f.available, up);
    RoundIsExact(f.current, up);
    RoundIsExact(f.target, up);
  }

  /** What a caller can check beforehand: the amounts and targets are such that all of them are always displayed exactly. */
  ghost predicate DisplaysExactly(accounts: seq<Account>, triggerRatio: real) {
    OnGrid(accounts, triggerRatio) || IsSmall(accounts, triggerRatio)
  }

  lemma {:induction false} GridStays(accounts: seq<Account>, h: Hop, triggerRatio: real, up: iset<nat>, after: seq<Account>)
    requires PlannedHop(accounts, h, triggerRatio, up) && OnGrid(accounts, triggerRatio) && after == Hopped(accounts, h, triggerRatio, up)
    ensures OnGrid(after, triggerRatio)
  {
    var pool, amount := Pool(accounts), HopAmount(accounts, h, triggerRatio, up);
    TransferConserves(accounts, h, amount, after);
    GridIsExact(accounts, triggerRatio, up, h.from);
    GridIsExact(accounts, triggerRatio, up, h.to);
    GridAmount(RealAt(accounts, h.from, triggerRatio), RealAt(accounts, h.to, triggerRatio));
    GridAmountSeen(accounts, h, triggerRatio, up);
    forall i | 0 <= i < |after| ensures IsRound(Real(after[i], pool, triggerRatio)) {
      assert IsRound(Real(accounts[i], pool, triggerRatio));
      if i == h.from || i == h.to { PaidOnGrid(accounts[i], pool, triggerRatio, if i == h.from then -amount else amount); }
    }
  }

  lemma {:induction false} PaidOnGrid(a: Account, pool: int, triggerRatio: real, amount: int)
    requires IsRound(Real(a, pool, triggerRatio)) && amount % 10000 == 0
    ensures IsRound(Real(Paid(a, amount), pool, triggerRatio))
  {
    var f := Real(a, pool, triggerRatio);
    PaidFigures(a, pool, triggerRatio, amount);
    SumIsRound(f.available, amount);
    SumIsRound(f.current, amount);
    SumIsRound(f.target, amount);
  }

  lemma {:induction false} SumIsRound(x: int, y: int)
    requires x % 10000 == 0 && y % 10000 == 0
    ensures (x + y) % 10000 == 0
  {
  }

  lemma {:induction false} GridAmount(source: Funds, target: Funds)
    requires IsRound(source) && IsRound(target)
    ensures Amount(source, target) % 10000 == 0 && -Amount(source, target) % 10000 == 0
  {
  }

  /** The amount is planned on the real figures when these are displayed exactly. */
  lemma {:induction false} GridAmountSeen(accounts: seq<Account>, h: Hop, triggerRatio: real, up: iset<nat>)
    requires ExactHop(accounts, h, triggerRatio, up)
    ensures HopAmount(accounts, h, triggerRatio, up) == Amount(RealAt(accounts, h.from, triggerRatio), RealAt(accounts, h.to, triggerRatio))
  {
  }

  lemma {:induction false} SmallStays(accounts: seq<Account>, h: Hop, triggerRatio: real, up: iset<nat>, after: seq<Account>)
    requires PlannedHop(accounts, h, triggerRatio, up) && IsSmall(accounts, triggerRatio) && after == Hopped(accounts, h, triggerRatio, up)
    ensures IsSmall(after, triggerRatio)
  {
    var pool, amount := Pool(accounts), HopAmount(accounts, h, triggerRatio, up);
    TransferConserves(accounts, h, amount, after);
    SmallIsExact(accounts, triggerRatio, up, h.from);
    SmallIsExact(accounts, triggerRatio, up, h.to);
    GridAmountSeen(accounts, h, triggerRatio, up);
    forall i | 0 <= i < |after| ensures after[i].available >= 0 && after[i].current >= 0 {
      assert IsModest(Real(accounts[i], pool, triggerRatio));
    }
    forall i | 0 <= i < |after| ensures IsModest(Real(after[i], pool, triggerRatio)) {
      assert IsModest(Real(accounts[i], pool, triggerRatio));
      PartsAreBelow(after, i);
      PaidFigures(accounts[i], pool, triggerRatio, if i == h.from then -amount else amount);
    }
  }

  /** From accounts that are always displayed exactly, every run of the balancer ends: each transfer lowers the real
      imbalance, so there are no more transfers than it amounts to. */
  lemma {:induction false} RunsEnd(accounts: seq<Account>, run: seq<Hop>, triggerRatio: real, up: iset<nat>)
    requires IsRun(accounts, run, triggerRatio, up) && DisplaysExactly(accounts, triggerRatio)
    ensures var after := AfterRun(accounts, run, triggerRatio, up);
            && DisplaysExactly(after, triggerRatio)
            && |run| + Imbalance(RealAll(after, Pool(after), triggerRatio)) <= Imbalance(RealAll(accounts, Pool(accounts), triggerRatio))
    decreases |run|
  {
    if run != [] {
      var h, next := run[0], Hopped(accounts, run[0], triggerRatio, up);
      if OnGrid(accounts, triggerRatio) {
        GridIsExact(accounts, triggerRatio, up, h.from);
        GridIsExact(accounts, triggerRatio, up, h.to);
        GridStays(accounts, h, triggerRatio, up, next);
      } else {
        SmallIsExact(accounts, triggerRatio, up, h.from);
        SmallIsExact(accounts, triggerRatio, up, h.to);
        SmallStays(accounts, h, triggerRatio, up, next);
      }
      ExactHopLowers(accounts, h, triggerRatio, up, next);
      RunsEnd(next, run[1..], triggerRatio, up);
    }
  }

  // ------------------------------------------------------------ runs that do not end

  /** With one account in need and another in surplus, the pick is the transfer between them. */
  lemma {:induction false} PickOfTwo(rows: seq<Funds>, s: nat, t: nat)
    requires |rows| == 2 && s < 2 && t < 2 && s != t && rows[s].InSurplus() && rows[t].InNeed() && Helps(rows[s], rows[t])
    requires !rows[t].InSurplus()
    ensures Pick(rows) == Some(Candidate(rows[s].id, rows[t].id, Amount(rows[s], rows[t])))
  {
    assert Planned(rows, rows[s], rows[t]);
    PlansAreThePairs(rows, Candidate(rows[s].id, rows[t].id, Amount(rows[s], rows[t])));
    var a, b := PickIsNeediestFromRichest(rows);
  }

  /** Ties are displayed to the even number of hundreds. */
  ghost const HALF_TO_EVEN: iset<nat> := iset n: nat | n % 2 == 1

  /** Two accounts of equal shares, fifty to either side of their target. */
  function Lopsided(first: bool): seq<Account> {
    if first then [Account(1, 1350, 1350, 50.0), Account(2, 1250, 1250, 50.0)]
    else [Account(1, 1250, 1250, 50.0), Account(2, 1350, 1350, 50.0)]
  }

  function Across(first: bool): Hop { if first then Hop(0, 1) else Hop(1, 0) }

  lemma {:induction false} LopsidedFigures(first: bool)
    ensures Pool(Lopsided(first)) == 2600
    ensures SeenAt(Lopsided(first), 0, 1.0, HALF_TO_EVEN)
            == if first then Funds(1, 1400, 1400, 1300, 1300) else Funds(1, 1200, 1200, 1300, 1300)
    ensures SeenAt(Lopsided(first), 1, 1.0, HALF_TO_EVEN)
            == if first then Funds(2, 1200, 1200, 1300, 1300) else Funds(2, 1400, 1400, 1300, 1300)
  {
    var accounts := Lopsided(first);
    assert Pool(accounts[..1][..0]) == 0 && accounts[..1][..0] == [];
    assert PartOf(2600, 50.0) == 1300 && TriggerOf(1300, 1.0) == 1300;
    assert Shown(1350, HALF_TO_EVEN) == 1400 && Shown(1250, HALF_TO_EVEN) == 1200 && Shown(1300, HALF_TO_EVEN) == 1300;
  }

  /** A hundred is moved although each account is only fifty off, and the same is picked the other way round next time. */
  lemma {:induction false} LopsidedStep(first: bool)
    ensures PlannedHop(Lopsided(first), Across(first), 1.0, HALF_TO_EVEN)
    ensures Hopped(Lopsided(first), Across(first), 1.0, HALF_TO_EVEN) == Lopsided(!first)
    ensures Pick(SeenAll(Lopsided(first), 2600, 1.0, HALF_TO_EVEN)) == Some(if first then Candidate(1, 2, 100) else Candidate(2, 1, 100))
  {
    LopsidedFigures(first);
    PickOfTwo(SeenAll(Lopsided(first), 2600, 1.0, HALF_TO_EVEN), Across(first).from, Across(first).to);
  }

  function BackAndForth(n: nat, first: bool): (run: seq<Hop>)
    ensures |run| == n
  {
    if n == 0 then [] else [Across(first)] + BackAndForth(n - 1, !first)
  }

  lemma {:induction false} LopsidedPick(first: bool)
    ensures ReadRows(ShowAll(Lopsided(first), 2600, 1.0, HALF_TO_EVEN)) == Some(SeenAll(Lopsided(first), 2600, 1.0, HALF_TO_EVEN))
    ensures Pick(SeenAll(Lopsided(first), 2600, 1.0, HALF_TO_EVEN)) == Some(if first then Candidate(1, 2, 100) else Candidate(2, 1, 100))
    ensures Pool(Lopsided(first)) == 2600
  {
    LopsidedFigures(first);
    LopsidedStep(first);
    TableIsSeen(Lopsided(first), 2600, 1.0, HALF_TO_EVEN);
  }

  /** From these accounts, with a trigger ratio of one, the balancer passes a hundred back and forth forever: there is a run of
      every length, and every transfer in it is the one that is picked from the balance table (LopsidedPick). */
  lemma {:induction false} BalancingNeedNotEnd(n: nat, first: bool)
    ensures IsRun(Lopsided(first), BackAndForth(n, first), 1.0, HALF_TO_EVEN)
  {
    if n > 0 {
      LopsidedStep(first);
      BalancingNeedNotEnd(n - 1, !first);
      assert BackAndForth(n, first)[1..] == BackAndForth(n - 1, !first);
    }
  }

  /** Two accounts that are two off their targets. */
  const NEARLY_BALANCED := [Account(1, 1051, 1051, 9.99), Account(2, 9449, 9449, 90.01)]

  /** They are displayed as a hundred off, a hundred is picked, and both end up 98 on the other side of their targets. */
  lemma {:induction false} DisplayOverdraws(up: iset<nat>)
    ensures Pool(NEARLY_BALANCED) == 10500
    ensures ReadRows(ShowAll(NEARLY_BALANCED, 10500, 1.0, up)).Some?
    ensures Pick(ReadRows(ShowAll(NEARLY_BALANCED, 10500, 1.0, up)).value) == Some(Candidate(1, 2, 100))
    ensures var after := Transferred(NEARLY_BALANCED, Hop(0, 1), 100);
            && RealAt(NEARLY_BALANCED, 0, 1.0).Deviation() == 2 && Real(after[0], 10500, 1.0).Deviation() == -98
            && RealAt(NEARLY_BALANCED, 1, 1.0).Deviation() == -2 && Real(after[1], 10500, 1.0).Deviation() == 98
  {
    NearlyBalanced(up);
    TableIsSeen(NEARLY_BALANCED, 10500, 1.0, up);
    var rows := SeenAll(NEARLY_BALANCED, 10500, 1.0, up);
    assert rows[0] == Funds(1, 1100, 1100, 1000, 1000) && rows[1] == Funds(2, 9400, 9400, 9500, 9500);
    PickOfTwo(rows, 0, 1);
    PaidFigures(NEARLY_BALANCED[0], 10500, 1.0, -100);
    PaidFigures(NEARLY_BALANCED[1], 10500, 1.0, 100);
  }

  lemma {:induction false} NearlyBalanced(up: iset<nat>)
    ensures Pool(NEARLY_BALANCED) == 10500
    ensures Real(NEARLY_BALANCED[0], 10500, 1.0) == Funds(1, 1051, 1051, 1049, 1049)
    ensures Real(NEARLY_BALANCED[1], 10500, 1.0) == Funds(2, 9449, 9449, 9451, 9451)
    ensures Sees(Real(NEARLY_BALANCED[0], 10500, 1.0), up) == Funds(1, 1100, 1100, 1000, 1000)
    ensures Sees(Real(NEARLY_BALANCED[1], 10500, 1.0), up) == Funds(2, 9400, 9400, 9500, 9500)
  {
    var accounts := NEARLY_BALANCED;
    assert Pool(accounts[..1][..0]) == 0 && accounts[..1][..0] == [];
    assert PartOf(10500, 9.99) == 1049 && PartOf(10500, 90.01) == 9451;
    assert TriggerOf(1049, 1.0) == 1049 && TriggerOf(9451, 1.0) == 9451;
    NearlyShown(up);
  }

  lemma {:induction false} NearlyShown(up: iset<nat>)
    ensures Shown(1051, up) == 1100 && Shown(1049, up) == 1000 && Shown(9449, up) == 9400 && Shown(9451, up) == 9500
  {
  }
}

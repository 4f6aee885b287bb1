/** The balance table of a user (`build_balance_rows_from_accounts`): what each account should hold, and how it is shown. */
module FundTargets {
  import opened Prelude
  import Text
  import opened Amounts

  /** Python's `round`: to the nearest whole number, halves to the even one. */
  function Round(x: real): (n: int)
    ensures -0.5 <= n as real - x <= 0.5
    ensures n as real - x == 0.5 || x - n as real == 0.5 ==> n % 2 == 0
  {
    var low := x.Floor;
    var rest := x - low as real;
    if rest < 0.5 || (rest == 0.5 && low % 2 == 0) then low else low + 1
  }

  /** `_resolve_account_balance_snapshot`: a balance that is positive or has been synchronised counts as it is, and is shown
      as such; without one the exchange's fallback text is shown, which is `$0` for all of them. */
  method ResolveBalance(cached: real, synced: bool, up: iset<nat>) returns (available: int, display: string)
    ensures available == if cached > 0.0 || synced then Round(cached) else 0
    ensures display == Format(available, up)
  {
    if cached > 0.0 || synced {
      available, display := Round(cached), Format(Round(cached), up);
    } else {
      display := "$0";
      ParseFormat(0, up);
      assert Format(0, up) == "$" + Text.Decimal(0) == "$0";
      available := Parse(display).value;
    }
  }

  /** An account's amounts in whole units, its available balance resolved; a share above 0 per cent is configured by the
      user. */
  datatype Account = Account(id: int, available: int, current: int, sharePercent: real)

  /** A row of the balance table, as text. */
  datatype BalanceRow = BalanceRow(id: int, available: string, current: string, target: string, trigger: string)

  predicate Configured(a: Account) { a.sharePercent > 0.0 }

  function Pool(accounts: seq<Account>): int {
    if accounts == [] then 0 else Pool(accounts[..|accounts| - 1]) + accounts[|accounts| - 1].available
  }

  function Scale(pool: int, share: real): real { pool as real * share }

  /** The part of the pool that a share comes to. */
  function PartOf(pool: int, percent: real): int { Round(Scale(pool, percent / 100.0)) }

  /** What an account should hold: its share of the pool, or, without a share, what it has of it. */
  function Target(a: Account, pool: int): int {
    if Configured(a) then PartOf(pool, a.sharePercent) else if pool > 0 then a.available else 0
  }

  function TriggerOf(target: int, triggerRatio: real): int { Round(Scale(target, triggerRatio)) }

  function Trigger(a: Account, pool: int, triggerRatio: real): int { TriggerOf(Target(a, pool), triggerRatio) }

  function Shows(a: Account, pool: int, triggerRatio: real, up: iset<nat>): BalanceRow {
    BalanceRow(a.id, Format(a.available, up), Format(a.current, up), Format(Target(a, pool), up), Format(Trigger(a, pool, triggerRatio), up))
  }

  function ShowAll(accounts: seq<Account>, pool: int, triggerRatio: real, up: iset<nat>): seq<BalanceRow> {
    if accounts == [] then []
    else ShowAll(accounts[..|accounts| - 1], pool, triggerRatio, up) + [Shows(accounts[|accounts| - 1], pool, triggerRatio, up)]
  }

  method BuildBalanceRows(accounts: seq<Account>, triggerRatio: real, up: iset<nat>) returns (rows: seq<BalanceRow>)
    ensures rows == ShowAll(accounts, Pool(accounts), triggerRatio, up)
  {
    var totalAvailable := TotalAvailable(accounts);
    rows := [];
    for i := 0 to |accounts|
      invariant rows == ShowAll(accounts[..i], totalAvailable, triggerRatio, up)
    {
      assert accounts[..i + 1][..i] == accounts[..i];
      var row := BuildRow(accounts[i], totalAvailable, triggerRatio, up);
      rows := rows + [row];
    }
    assert accounts[..|accounts|] == accounts;
  }

  /** The first loop. */
  method TotalAvailable(accounts: seq<Account>) returns (total: int)
    ensures total == Pool(accounts)
  {
    total := 0;
    for i := 0 to |accounts|
      invariant total == Pool(accounts[..i])
    {
      assert accounts[..i + 1][..i] == accounts[..i];
      total := total + accounts[i].available;
    }
    assert accounts[..|accounts|] == accounts;
  }

  /** The body of the second loop. */
  method BuildRow(a: Account, pool: int, triggerRatio: real, up: iset<nat>) returns (row: BalanceRow)
    ensures row == Shows(a, pool, triggerRatio, up)
  {
    var target := TargetOf(a, pool);
    var trigger := Round(Scale(target, triggerRatio));
    row := BalanceRow(a.id, Format(a.available, up), Format(a.current, up), Format(target, up), Format(trigger, up));
  }

  /** The target as the loop computes it: an account without a share gets the share that it has, and that comes to exactly what
      it has. */
  method TargetOf(a: Account, pool: int) returns (target: int)
    ensures target == Target(a, pool)
  {
    var ratio := 0.0;
    if a.sharePercent > 0.0 {
      ratio := a.sharePercent / 100.0;
    } else if pool > 0 {
      ratio := a.available as real / pool as real;
      TimesQuotient(pool as real, a.available as real);
      RoundsToItself(a.available, Scale(pool, ratio));
    } else {
      RoundsToItself(0, Scale(pool, ratio));
    }
    target := Round(Scale(pool, ratio));
  }

  lemma RoundsToItself(n: int, x: real)
    requires x == n as real
    ensures Round(x) == n
  {
  }

  /** A configured account is to hold its percentage of the pool, and to ask for more below the ratio's part of that; both to
      the nearest unit. */
  lemma TargetAndTrigger(a: Account, pool: int, triggerRatio: real)
    ensures Configured(a) ==> Within(Target(a, pool) as real, pool as real * a.sharePercent / 100.0, 0.5)
    ensures !Configured(a) ==> Target(a, pool) == if pool > 0 then a.available else 0
    ensures Within(Trigger(a, pool, triggerRatio) as real, Target(a, pool) as real * triggerRatio, 0.5)
  {
    TimesHundredth(pool as real, a.sharePercent);
  }

  lemma TimesHundredth(x: real, y: real)
    ensures x * y / 100.0 == x * (y / 100.0)
  {
  }

  // ------------------------------------------------------------- conservation

  function Targets(accounts: seq<Account>, pool: int): int {
    if accounts == [] then 0 else Targets(accounts[..|accounts| - 1], pool) + Target(accounts[|accounts| - 1], pool)
  }

  /** The configured shares, the accounts that have one, and what the others have available. */
  function Percents(accounts: seq<Account>): real {
    if accounts == [] then 0.0
    else
      var a := accounts[|accounts| - 1];
      Percents(accounts[..|accounts| - 1]) + if Configured(a) then a.sharePercent else 0.0
  }

  function ConfiguredCount(accounts: seq<Account>): nat {
    if accounts == [] then 0 else ConfiguredCount(accounts[..|accounts| - 1]) + if Configured(accounts[|accounts| - 1]) then 1 else 0
  }

  function Unconfigured(accounts: seq<Account>): int {
    if accounts == [] then 0
    else
      var a := accounts[|accounts| - 1];
      Unconfigured(accounts[..|accounts| - 1]) + if Configured(a) then 0 else a.available
  }

  lemma TimesQuotient(x: real, y: real)
    requires x > 0.0
    ensures x * (y / x) == y
  {
  }

  predicate Within(a: real, b: real, slack: real) { -slack <= a - b <= slack }

  /** The targets add up to the configured part of the pool and whatever the other accounts have (nothing, without a
      positive pool), give or take half a unit for every configured account. */
  lemma {:induction false} TargetsAddUp(accounts: seq<Account>, pool: int)
    ensures Within(Targets(accounts, pool) as real,
                   Scale(pool, Percents(accounts) / 100.0) + if pool > 0 then Unconfigured(accounts) as real else 0.0,
                   ConfiguredCount(accounts) as real / 2.0)
  {
    if accounts != [] {
      var before, a := accounts[..|accounts| - 1], accounts[|accounts| - 1];
      TargetsAddUp(before, pool);
      if Configured(a) { AddShares(pool, Percents(before), a.sharePercent); }
    }
  }

  lemma AddShares(pool: int, p: real, q: real)
    ensures Scale(pool, (p + q) / 100.0) == Scale(pool, p / 100.0) + Scale(pool, q / 100.0)
  {
    assert (p + q) / 100.0 == p / 100.0 + q / 100.0;
  }

  /** When every account is configured and the shares total 100 per cent, the targets add up to the pool to within half a
      unit an account. */
  lemma TargetsSumToPool(accounts: seq<Account>)
    requires Percents(accounts) == 100.0
    requires forall i :: 0 <= i < |accounts| ==> Configured(accounts[i])
    ensures Within(Targets(accounts, Pool(accounts)) as real, Pool(accounts) as real, |accounts| as real / 2.0)
  {
    TargetsAddUp(accounts, Pool(accounts));
    AllConfigured(accounts);
  }

  lemma {:induction false} AllConfigured(accounts: seq<Account>)
    requires forall i :: 0 <= i < |accounts| ==> Configured(accounts[i])
    ensures ConfiguredCount(accounts) == |accounts| && Unconfigured(accounts) == 0
  {
    if accounts != [] { AllConfigured(accounts[..|accounts| - 1]); }
  }
}

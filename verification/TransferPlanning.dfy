/** Planning transfers between a user's accounts (`account_transfer_planning_service`), and what balancing again and again
    comes to. */
module TransferPlanning {
  import opened Prelude
  import opened Amounts
  import opened Sorting
  import opened FundTargets

  /** A balance row as the planner reads it back. */
  datatype Funds = Funds(id: int, available: int, current: int, target: int, trigger: int)
  {
    function Decision(): int { if available < current then available else current }

    function Deviation(): int { Decision() - target }

    predicate InNeed() { target > 0 && trigger > 0 && (available < trigger || current < trigger) }

    predicate InSurplus() { Decision() > target }
  }

  datatype Candidate = Candidate(from: int, to: int, amount: int)

  // ------------------------------------------------------------ what is planned

  function ReadRow(row: BalanceRow): Option<Funds> {
    var available, current, target, trigger := Parse(row.available), Parse(row.current), Parse(row.target), Parse(row.trigger);
    if available.Some? && current.Some? && target.Some? && trigger.Some?
    then Some(Funds(row.id, available.value, current.value, target.value, trigger.value)) else None
  }

  /** None where some amount cannot be read. */
  function ReadRows(rows: seq<BalanceRow>): Option<seq<Funds>> {
    if rows == [] then Some([])
    else
      var before, last := ReadRows(rows[..|rows| - 1]), ReadRow(rows[|rows| - 1]);
      if before.Some? && last.Some? then Some(before.value + [last.value]) else None
  }

  function Needy(rows: seq<Funds>): seq<Funds> {
    if rows == [] then []
    else Needy(rows[..|rows| - 1]) + if rows[|rows| - 1].InNeed() then [rows[|rows| - 1]] else []
  }

  function Rich(rows: seq<Funds>): seq<Funds> {
    if rows == [] then []
    else Rich(rows[..|rows| - 1]) + if rows[|rows| - 1].InSurplus() then [rows[|rows| - 1]] else []
  }

  /** By deviation, and by deviation in reverse; in both directions equal rows keep their order. */
  const NEEDIEST: (Funds, Funds) -> bool := (a: Funds, b: Funds) => a.Deviation() < b.Deviation()

  const RICHEST: (Funds, Funds) -> bool := (a: Funds, b: Funds) => a.Deviation() > b.Deviation()

  function Amount(source: Funds, target: Funds): int {
    var surplus, need := if source.Deviation() > 0 then source.Deviation() else 0, if target.Deviation() < 0 then -target.Deviation() else 0;
    if surplus < need then surplus else need
  }

  function Move(source: Funds, target: Funds): seq<Candidate> {
    if source.id == target.id || Amount(source, target) <= 0 then [] else [Candidate(source.id, target.id, Amount(source, target))]
  }

  function MovesTo(target: Funds, sources: seq<Funds>): seq<Candidate> {
    if sources == [] then [] else MovesTo(target, sources[..|sources| - 1]) + Move(sources[|sources| - 1], target)
  }

  function Moves(targets: seq<Funds>, sources: seq<Funds>): seq<Candidate> {
    if targets == [] then [] else Moves(targets[..|targets| - 1], sources) + MovesTo(targets[|targets| - 1], sources)
  }

  function Plans(rows: seq<Funds>): seq<Candidate> {
    Moves(Sort(Needy(rows), NEEDIEST), Sort(Rich(rows), RICHEST))
  }

  // ------------------------------------------------------------- how it is done

  /** `list_auto_transfer_candidates`; None where an amount cannot be read. */
  method ListCandidates(balanceRows: seq<BalanceRow>) returns (candidates: Option<seq<Candidate>>)
    ensures candidates == match ReadRows(balanceRows) case None => None case Some(rows) => Some(Plans(rows))
  {
    var rows := [];
    for i := 0 to |balanceRows|
      invariant ReadRows(balanceRows[..i]) == Some(rows)
    {
      assert balanceRows[..i + 1][..i] == balanceRows[..i];
      var row := ReadRow(balanceRows[i]);
      if row.None? {
        Unreadable(balanceRows, i + 1);
        return None;
      }
      rows := rows + [row.value];
    }
    assert balanceRows[..|balanceRows|] == balanceRows;
    var demand := Needy(rows);
    if demand == [] { return Some([]); }
    demand := Sort(demand, NEEDIEST);
    var sources := Rich(rows);
    if sources == [] {
      NoSources(demand);
      return Some([]);
    }
    sources := Sort(sources, RICHEST);
    var list := Combine(demand, sources);
    return Some(list);
  }

  lemma {:induction false} Unreadable(rows: seq<BalanceRow>, i: nat)
    requires i <= |rows| && ReadRows(rows[..i]).None?
    ensures ReadRows(rows).None?
    decreases |rows| - i
  {
    if i < |rows| {
      assert rows[..i + 1][..i] == rows[..i];
      Unreadable(rows, i + 1);
    } else {
      assert rows[..i] == rows;
    }
  }

  lemma {:induction false} NoSources(targets: seq<Funds>)
    ensures Moves(targets, []) == []
  {
    if targets != [] { NoSources(targets[..|targets| - 1]); }
  }

  /** The nested loops over the sorted rows. */
  method Combine(targets: seq<Funds>, sources: seq<Funds>) returns (candidates: seq<Candidate>)
    ensures candidates == Moves(targets, sources)
  {
    candidates := [];
    for i := 0 to |targets|
      invariant candidates == Moves(targets[..i], sources)
    {
      assert targets[..i + 1][..i] == targets[..i];
      ghost var before := candidates;
      for j := 0 to |sources|
        invariant candidates == before + MovesTo(targets[i], sources[..j])
      {
        assert sources[..j + 1][..j] == sources[..j];
        var source, target := sources[j], targets[i];
        if source.id == target.id { continue; }
        var surplus := if source.Decision() - source.target > 0 then source.Decision() - source.target else 0;
        var need := if target.target - target.Decision() > 0 then target.target - target.Decision() else 0;
        var amount := if surplus < need then surplus else need;
        if amount <= 0 { continue; }
        if source.Decision() - amount < source.target {
          assert false;
          continue;
        }
        candidates := candidates + [Candidate(source.id, target.id, amount)];
      }
      assert sources[..|sources|] == sources;
    }
    assert targets[..|targets|] == targets;
  }

  /** `pick_auto_transfer_candidate`. */
  function Pick(rows: seq<Funds>): Option<Candidate> {
    if Plans(rows) == [] then None else Some(Plans(rows)[0])
  }

  // ------------------------------------------------------- what is on the list

  lemma {:induction false} NeedyAndRich(rows: seq<Funds>, row: Funds)
    ensures row in Needy(rows) <==> row in rows && row.InNeed()
    ensures row in Rich(rows) <==> row in rows && row.InSurplus()
  {
    if rows != [] {
      NeedyAndRich(rows[..|rows| - 1], row);
      assert rows == rows[..|rows| - 1] + [rows[|rows| - 1]];
    }
  }

  lemma SortedNeedyAndRich(rows: seq<Funds>, row: Funds)
    ensures row in Sort(Needy(rows), NEEDIEST) <==> row in rows && row.InNeed()
    ensures row in Sort(Rich(rows), RICHEST) <==> row in rows && row.InSurplus()
  {
    NeedyAndRich(rows, row);
    SortKeeps(Needy(rows), NEEDIEST);
    SortKeeps(Rich(rows), RICHEST);
  }

  /** One account can help another: they differ, one is below its target and the other above. */
  predicate Helps(source: Funds, target: Funds) {
    source.id != target.id && Amount(source, target) > 0
  }

  lemma {:induction false} MovesToAre(target: Funds, sources: seq<Funds>, c: Candidate)
    ensures c in MovesTo(target, sources)
            <==> exists s :: s in sources && Helps(s, target) && c == Candidate(s.id, target.id, Amount(s, target))
  {
    if sources != [] {
      MovesToAre(target, sources[..|sources| - 1], c);
      assert sources == sources[..|sources| - 1] + [sources[|sources| - 1]];
    }
  }

  lemma {:induction false} MovesAre(targets: seq<Funds>, sources: seq<Funds>, c: Candidate)
    ensures c in Moves(targets, sources)
            <==> exists s, t :: s in sources && t in targets && Helps(s, t) && c == Candidate(s.id, t.id, Amount(s, t))
  {
    if targets != [] {
      MovesAre(targets[..|targets| - 1], sources, c);
      MovesToAre(targets[|targets| - 1], sources, c);
      assert targets == targets[..|targets| - 1] + [targets[|targets| - 1]];
    }
  }

  ghost predicate Planned(rows: seq<Funds>, source: Funds, target: Funds) {
    source in rows && target in rows && source.InSurplus() && target.InNeed() && Helps(source, target)
  }

  /** The list holds exactly the helpful pairs of an account in surplus and an account in need. */
  lemma PlansAreThePairs(rows: seq<Funds>, c: Candidate)
    ensures c in Plans(rows) <==> exists s, t :: Planned(rows, s, t) && c == Candidate(s.id, t.id, Amount(s, t))
  {
    MovesAre(Sort(Needy(rows), NEEDIEST), Sort(Rich(rows), RICHEST), c);
    forall row ensures row in Sort(Needy(rows), NEEDIEST) <==> row in rows && row.InNeed() { SortedNeedyAndRich(rows, row); }
    forall row ensures row in Sort(Rich(rows), RICHEST) <==> row in rows && row.InSurplus() { SortedNeedyAndRich(rows, row); }
  }

  /** Of the sources that can help `target`, the first one listed has the largest surplus. */
  lemma {:induction false} FirstSource(target: Funds, sources: seq<Funds>) returns (s: Funds)
    requires InOrder(sources, RICHEST) && MovesTo(target, sources) != []
    ensures s in sources && Helps(s, target) && MovesTo(target, sources)[0] == Candidate(s.id, target.id, Amount(s, target))
    ensures forall other :: other in sources && Helps(other, target) ==> other.Deviation() <= s.Deviation()
  {
    var before, last := sources[..|sources| - 1], sources[|sources| - 1];
    assert sources == before + [last];
    if MovesTo(target, before) != [] {
      s := FirstSource(target, before);
      var i :| 0 <= i < |before| && before[i] == s;
      assert !RICHEST(sources[|sources| - 1], sources[i]);
    } else {
      s := last;
      NobodyHelps(target, before);
    }
  }

  lemma NobodyHelps(target: Funds, sources: seq<Funds>)
    requires MovesTo(target, sources) == []
    ensures forall other :: other in sources ==> !Helps(other, target)
  {
    forall other | other in sources ensures !Helps(other, target) {
      MovesToAre(target, sources, Candidate(other.id, target.id, Amount(other, target)));
    }
  }

  lemma {:induction false} FirstTarget(targets: seq<Funds>, sources: seq<Funds>) returns (s: Funds, t: Funds)
    requires InOrder(targets, NEEDIEST) && InOrder(sources, RICHEST) && Moves(targets, sources) != []
    ensures s in sources && t in targets && Helps(s, t) && Moves(targets, sources)[0] == Candidate(s.id, t.id, Amount(s, t))
    ensures forall other, u :: other in sources && u in targets && Helps(other, u) ==> t.Deviation() <= u.Deviation()
    ensures forall other :: other in sources && Helps(other, t) ==> other.Deviation() <= s.Deviation()
  {
    var before, last := targets[..|targets| - 1], targets[|targets| - 1];
    assert targets == before + [last];
    if Moves(before, sources) != [] {
      s, t := FirstTarget(before, sources);
      var i :| 0 <= i < |before| && before[i] == t;
      assert !NEEDIEST(targets[|targets| - 1], targets[i]);
    } else {
      t := last;
      s := FirstSource(last, sources);
      forall other, u | other in sources && u in before ensures !Helps(other, u) {
        MovesAre(before, sources, Candidate(other.id, u.id, Amount(other, u)));
      }
    }
  }

  /** The picked transfer serves the neediest account that anyone can help, from the largest surplus. */
  lemma PickIsNeediestFromRichest(rows: seq<Funds>) returns (s: Funds, t: Funds)
    requires Pick(rows).Some?
    ensures Planned(rows, s, t) && Pick(rows).value == Candidate(s.id, t.id, Amount(s, t))
    ensures forall other, u :: Planned(rows, other, u) ==> t.Deviation() <= u.Deviation()
    ensures forall other :: Planned(rows, other, t) ==> other.Deviation() <= s.Deviation()
  {
    SortOrders(Needy(rows), NEEDIEST);
    SortOrders(Rich(rows), RICHEST);
    s, t := FirstTarget(Sort(Needy(rows), NEEDIEST), Sort(Rich(rows), RICHEST));
    forall row ensures row in Sort(Needy(rows), NEEDIEST) <==> row in rows && row.InNeed() { SortedNeedyAndRich(rows, row); }
    forall row ensures row in Sort(Rich(rows), RICHEST) <==> row in rows && row.InSurplus() { SortedNeedyAndRich(rows, row); }
  }

  // ----------------------------------------------------------- the whole order

  /** The accounts behind a candidate. */
  datatype Match = Match(source: Funds, target: Funds)

  function MatchesTo(target: Funds, sources: seq<Funds>): seq<Match> {
    if sources == [] then []
    else
      var last := sources[|sources| - 1];
      MatchesTo(target, sources[..|sources| - 1]) + if Helps(last, target) then [Match(last, target)] else []
  }

  function Matches(targets: seq<Funds>, sources: seq<Funds>): seq<Match> {
    if targets == [] then [] else Matches(targets[..|targets| - 1], sources) + MatchesTo(targets[|targets| - 1], sources)
  }

  predicate Serves(c: Candidate, m: Match) {
    c == Candidate(m.source.id, m.target.id, Amount(m.source, m.target)) && Helps(m.source, m.target)
  }

  ghost predicate ServesAll(candidates: seq<Candidate>, matches: seq<Match>) {
    |candidates| == |matches| && forall k :: 0 <= k < |matches| ==> Serves(candidates[k], matches[k])
  }

  /** Needier targets come first, and for one target larger surpluses do. */
  ghost predicate MostUrgentFirst(matches: seq<Match>) {
    forall i, j :: 0 <= i < j < |matches| ==>
                     && matches[i].target.Deviation() <= matches[j].target.Deviation()
                     && (matches[i].target == matches[j].target ==> matches[i].source.Deviation() >= matches[j].source.Deviation())
  }

  lemma {:induction false} MatchesToAre(target: Funds, sources: seq<Funds>)
    requires InOrder(sources, RICHEST)
    ensures ServesAll(MovesTo(target, sources), MatchesTo(target, sources)) && MostUrgentFirst(MatchesTo(target, sources))
    ensures forall m :: m in MatchesTo(target, sources) ==> m.target == target && m.source in sources
  {
    if sources != [] {
      var before, last := sources[..|sources| - 1], sources[|sources| - 1];
      assert sources == before + [last];
      MatchesToAre(target, before);
      var matches := MatchesTo(target, before);
      forall m | m in matches ensures m.source.Deviation() >= last.Deviation() {
        var i :| 0 <= i < |before| && before[i] == m.source;
        assert !RICHEST(last, sources[i]);
      }
      forall i | 0 <= i < |matches| ensures matches[i].source.Deviation() >= last.Deviation() && matches[i].target == target {
        assert matches[i] in matches;
      }
    }
  }

  lemma {:induction false} MatchesAre(targets: seq<Funds>, sources: seq<Funds>)
    requires InOrder(targets, NEEDIEST) && Distinct(targets) && InOrder(sources, RICHEST)
    ensures ServesAll(Moves(targets, sources), Matches(targets, sources)) && MostUrgentFirst(Matches(targets, sources))
    ensures forall m :: m in Matches(targets, sources) ==> m.target in targets && m.source in sources
  {
    if targets != [] {
      var before, last := targets[..|targets| - 1], targets[|targets| - 1];
      assert targets == before + [last];
      WithoutLast(targets, NEEDIEST);
      MatchesAre(before, sources);
      MatchesToAre(last, sources);
      EarlierAreNeedier(targets, Matches(before, sources));
      UrgentThenLast(Matches(before, sources), MatchesTo(last, sources), last);
    }
  }

  lemma EarlierAreNeedier(targets: seq<Funds>, matches: seq<Match>)
    requires targets != [] && InOrder(targets, NEEDIEST) && Distinct(targets)
    requires forall m :: m in matches ==> m.target in targets[..|targets| - 1]
    ensures forall i :: 0 <= i < |matches| ==>
                          matches[i].target.Deviation() <= targets[|targets| - 1].Deviation() && matches[i].target != targets[|targets| - 1]
  {
    var last := targets[|targets| - 1];
    forall i | 0 <= i < |matches| ensures matches[i].target.Deviation() <= last.Deviation() && matches[i].target != last {
      assert matches[i] in matches;
      var k :| 0 <= k < |targets| - 1 && targets[k] == matches[i].target;
      assert !NEEDIEST(last, targets[k]);
    }
  }

  lemma UrgentThenLast(a: seq<Match>, b: seq<Match>, last: Funds)
    requires MostUrgentFirst(a) && MostUrgentFirst(b) && forall m :: m in b ==> m.target == last
    requires forall i :: 0 <= i < |a| ==> a[i].target.Deviation() <= last.Deviation() && a[i].target != last
    ensures MostUrgentFirst(a + b)
  {
    forall i, j | 0 <= i < j < |a + b|
      ensures (a + b)[i].target.Deviation() <= (a + b)[j].target.Deviation()
              && ((a + b)[i].target == (a + b)[j].target ==> (a + b)[i].source.Deviation() >= (a + b)[j].source.Deviation())
    {
      if j >= |a| { assert b[j - |a|] in b; }
    }
  }

  lemma {:induction false} NeedyAreDistinct(rows: seq<Funds>)
    requires Distinct(rows)
    ensures Distinct(Needy(rows))
  {
    if rows != [] {
      var before := rows[..|rows| - 1];
      NeedyAreDistinct(before);
      NeedyAndRich(before, rows[|rows| - 1]);
    }
  }

  /** The whole list is in order of urgency: by neediest target, and for each target by largest surplus. */
  lemma PlansAreOrdered(rows: seq<Funds>) returns (matches: seq<Match>)
    requires Distinct(rows)
    ensures ServesAll(Plans(rows), matches) && MostUrgentFirst(matches)
    ensures forall m :: m in matches ==> Planned(rows, m.source, m.target)
  {
    var targets, sources := Sort(Needy(rows), NEEDIEST), Sort(Rich(rows), RICHEST);
    NeedyAreDistinct(rows);
    SortOrders(Needy(rows), NEEDIEST);
    SortOrders(Rich(rows), RICHEST);
    SortKeepsDistinct(Needy(rows), NEEDIEST);
    MatchesAre(targets, sources);
    matches := Matches(targets, sources);
    forall m | m in matches ensures Planned(rows, m.source, m.target) {
      SortedNeedyAndRich(rows, m.source);
      SortedNeedyAndRich(rows, m.target);
      var k :| 0 <= k < |matches| && matches[k] == m;
      assert Serves(Plans(rows)[k], matches[k]);
    }
  }

  /** What counts is the lesser of the two balances: an account is in need when that is below a positive trigger and there is a
      target, and in surplus when both balances are above the target. */
  lemma SidesAre(row: Funds)
    ensures row.InNeed() <==> row.target > 0 && row.trigger > 0 && (row.available < row.trigger || row.current < row.trigger)
    ensures row.InSurplus() <==> row.available > row.target && row.current > row.target
    ensures row.Deviation() <= row.available - row.target && row.Deviation() <= row.current - row.target
    ensures row.Deviation() == row.available - row.target || row.Deviation() == row.current - row.target
  {
  }

  /** An account is on both sides exactly when its trigger is above its target and it holds an amount in between. */
  lemma BothSidesIff(row: Funds)
    ensures row.InNeed() && row.InSurplus() <==> 0 < row.target < row.Decision() < row.trigger
    ensures row.trigger <= row.target ==> !(row.InNeed() && row.InSurplus())
  {
  }

  // ---------------------------------------------------------- balancing again

  function Shift(row: Funds, amount: int): Funds {
    row.(available := row.available + amount, current := row.current + amount)
  }

  /** The rows after moving funds from the account at `i` to the one at `j`. */
  function Moved(rows: seq<Funds>, i: nat, j: nat): seq<Funds>
    requires i < |rows| && j < |rows| && i != j
  {
    var amount := Amount(rows[i], rows[j]);
    Replaced(rows, i, Shift(rows[i], -amount), j, Shift(rows[j], amount))
  }

  function Replaced(rows: seq<Funds>, i: nat, a: Funds, j: nat, b: Funds): seq<Funds>
    requires i < |rows| && j < |rows| && i != j
  {
    rows[i := a][j := b]
  }

  function Total(rows: seq<Funds>): int {
    if rows == [] then 0 else Total(rows[..|rows| - 1]) + rows[|rows| - 1].Decision()
  }

  function Abs(x: int): nat { if x < 0 then -x else x }

  function Imbalance(rows: seq<Funds>): nat {
    if rows == [] then 0 else Imbalance(rows[..|rows| - 1]) + Abs(rows[|rows| - 1].Deviation())
  }

  lemma {:induction false} UpdateSums(rows: seq<Funds>, i: nat, row: Funds)
    requires i < |rows|
    ensures Total(rows[i := row]) == Total(rows) - rows[i].Decision() + row.Decision()
    ensures Imbalance(rows[i := row]) == Imbalance(rows) - Abs(rows[i].Deviation()) + Abs(row.Deviation())
  {
    var n := |rows| - 1;
    if i < n {
      UpdateSums(rows[..n], i, row);
      assert rows[i := row][..n] == rows[..n][i := row];
    } else {
      assert rows[i := row][..n] == rows[..n];
    }
  }

  /** One planned transfer leaves its source at or above target and its destination at or below, and one of them right at it,
      keeps the total, and lowers the sum of deviations by exactly twice its amount. */
  lemma TransferBalances(rows: seq<Funds>, i: nat, j: nat, after: seq<Funds>)
    requires i < |rows| && j < |rows| && i != j && Helps(rows[i], rows[j]) && after == Moved(rows, i, j)
    ensures var amount := Amount(rows[i], rows[j]);
            && after[i].Decision() == rows[i].Decision() - amount >= rows[i].target
            && after[j].Decision() == rows[j].Decision() + amount <= rows[j].target
            && (after[i].Decision() == rows[i].target || after[j].Decision() == rows[j].target)
            && Total(after) == Total(rows)
            && Imbalance(after) == Imbalance(rows) - 2 * amount
  {
    var amount := Amount(rows[i], rows[j]);
    HelpBalances(rows[i], rows[j]);
    UpdateTwo(rows, i, j, Shift(rows[i], -amount), Shift(rows[j], amount), after);
  }

  lemma HelpBalances(source: Funds, target: Funds)
    requires Helps(source, target)
    ensures var amount := Amount(source, target);
            var given, taken := Shift(source, -amount), Shift(target, amount);
            && given.Decision() == source.Decision() - amount >= source.target
            && taken.Decision() == target.Decision() + amount <= target.target
            && (given.Decision() == source.target || taken.Decision() == target.target)
            && Abs(given.Deviation()) == Abs(source.Deviation()) - amount && Abs(taken.Deviation()) == Abs(target.Deviation()) - amount
  {
  }

  lemma UpdateTwo(rows: seq<Funds>, i: nat, j: nat, a: Funds, b: Funds, after: seq<Funds>)
    requires i < |rows| && j < |rows| && i != j && after == Replaced(rows, i, a, j, b)
    ensures && Total(after) == Total(rows) - rows[i].Decision() - rows[j].Decision() + a.Decision() + b.Decision()
            && Imbalance(after) == Imbalance(rows) - Abs(rows[i].Deviation()) - Abs(rows[j].Deviation())
                                   + Abs(a.Deviation()) + Abs(b.Deviation())
  {
    UpdateSums(rows, i, a);
    UpdateSums(rows[i := a], j, b);
  }
}

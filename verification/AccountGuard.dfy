/** The guard that freezes automatic transfers of an account (`auto_transfer_account_guard_service`): the stored rows, and
    what a row means as a summary of the account's failures. */
module AccountGuard {
  import opened Prelude
  import opened Text

  /** A guard row; times are opaque, and a row that is not frozen has no freezing time. */
  datatype Payload = Payload(category: string, count: nat, frozen: bool, lastErrorAt: nat, frozenAt: Option<nat>)

  const NON_ACCOUNT_CATEGORIES := {"route_unsupported"}

  function Normalized(p: Payload): Payload { p.(category := Norm(p.category)) }

  /** `_should_keep_payload`. */
  predicate Kept(p: Payload) { Norm(p.category) !in NON_ACCOUNT_CATEGORIES }

  /** What `get_state` finds: a row that is not to be kept reads as none, and is deleted on the way. */
  function Visible(row: Option<Payload>): Option<Payload> {
    if row.Some? && Kept(Normalized(row.value)) then Some(Normalized(row.value)) else None
  }

  /** The row `record_failure` writes over what it finds. */
  function Recorded(found: Option<Payload>, category: string, now: nat): Payload {
    var same := (if found.Some? then found.value.category else "") == category;
    var count := if same then (if found.Some? then found.value.count else 0) + 1 else 1;
    var frozen := (found.Some? && found.value.frozen) || count >= 2;
    Payload(Norm(category), count, frozen, now,
            if frozen then Some(if found.Some? then found.value.frozenAt.GetOr(now) else now) else None)
  }

  function NormAll(categories: set<string>): set<string> {
    set c | c in categories && Norm(c) != "" :: Norm(c)
  }

  /** Whether `clear_non_frozen_account_by_categories` clears what it finds. */
  predicate Clears(found: Option<Payload>, categories: set<string>) {
    found.Some? && !found.value.frozen && (NormAll(categories) == {} || found.value.category in NormAll(categories))
  }

  /** Everything that happens to an account's row. */
  datatype Event = Failure(category: string, at: nat) | Clear | ClearIf(categories: set<string>) | Look

  function Next(row: Option<Payload>, ev: Event): Option<Payload> {
    match ev
    case Failure(category, at) => Some(Recorded(Visible(row), category, at))
    case Clear => None
    case ClearIf(categories) => if Clears(Visible(row), categories) then None else Visible(row)
    case Look => Visible(row)
  }

  /** The row after a log of events. */
  function RowAfter(log: seq<Event>): Option<Payload> {
    if log == [] then None else Next(RowAfter(log[..|log| - 1]), log[|log| - 1])
  }

  // ------------------------------------------------------- the failures behind a row

  datatype Fault = Fault(category: string, at: nat)

  /** A failure counts as the same as the one before when its category, as given, is that one's normalised category. */
  predicate Repeats(faults: seq<Fault>, i: nat)
    requires i < |faults|
  {
    i > 0 && Norm(faults[i - 1].category) == faults[i].category
  }

  ghost predicate AnyRepeat(faults: seq<Fault>) {
    exists i :: 0 <= i < |faults| && Repeats(faults, i)
  }

  /** The length of the trailing run of failures that repeat. */
  function TrailingRun(faults: seq<Fault>): nat {
    if faults == [] then 0
    else if Repeats(faults, |faults| - 1) then 1 + TrailingRun(faults[..|faults| - 1])
    else 1
  }

  /** The time of the first failure that repeats. */
  function FirstRepeat(faults: seq<Fault>): Option<nat> {
    if faults == [] then None
    else
      var earlier := FirstRepeat(faults[..|faults| - 1]);
      if earlier.Some? then earlier
      else if Repeats(faults, |faults| - 1) then Some(faults[|faults| - 1].at)
      else None
  }

  lemma {:induction false} FirstRepeatIsFirst(faults: seq<Fault>) returns (i: nat)
    ensures if FirstRepeat(faults).None? then !AnyRepeat(faults)
            else i < |faults| && Repeats(faults, i) && faults[i].at == FirstRepeat(faults).value && NoneBefore(faults, i)
  {
    i := 0;
    if faults != [] {
      var n := |faults| - 1;
      var before := faults[..n];
      i := FirstRepeatIsFirst(before);
      RepeatsInPrefix(faults, n);
      if FirstRepeat(before).None? {
        forall j | 0 <= j < n ensures !Repeats(faults, j) { assert !Repeats(before, j); }
        i := n;
      }
    }
  }

  ghost predicate NoneBefore(faults: seq<Fault>, i: nat)
    requires i <= |faults|
  {
    forall j :: 0 <= j < i ==> !Repeats(faults, j)
  }

  lemma RepeatsInPrefix(faults: seq<Fault>, n: nat)
    requires n <= |faults|
    ensures forall i :: 0 <= i < n ==> Repeats(faults[..n], i) == Repeats(faults, i)
  {
  }

  lemma FrozenSince(faults: seq<Fault>)
    ensures FirstRepeat(faults).Some? <==> AnyRepeat(faults)
  {
    var i := FirstRepeatIsFirst(faults);
  }

  /** The failures of an account since its row was last away. */
  ghost function Faults(log: seq<Event>): seq<Fault> {
    if log == [] then []
    else
      var seen := Noticed(Faults(log[..|log| - 1]));
      match log[|log| - 1]
      case Failure(category, at) => seen + [Fault(category, at)]
      case Clear => []
      case ClearIf(categories) => if Forgiven(seen, categories) then [] else seen
      case Look => seen
  }

  /** Failures that are not the account's are forgotten when somebody looks, with all that came before them. */
  ghost function Noticed(faults: seq<Fault>): seq<Fault> {
    if faults != [] && Norm(faults[|faults| - 1].category) in NON_ACCOUNT_CATEGORIES then [] else faults
  }

  ghost predicate Forgiven(faults: seq<Fault>, categories: set<string>) {
    faults != [] && !AnyRepeat(faults)
    && (NormAll(categories) == {} || Norm(faults[|faults| - 1].category) in NormAll(categories))
  }

  /** What a row says about the failures behind it. */
  ghost predicate Summarizes(row: Option<Payload>, faults: seq<Fault>) {
    if faults == [] then row == None
    else
      && row.Some?
      && row.value.category == Norm(faults[|faults| - 1].category)
      && row.value.count == TrailingRun(faults)
      && row.value.frozen == AnyRepeat(faults)
      && row.value.lastErrorAt == faults[|faults| - 1].at
      && row.value.frozenAt == FirstRepeat(faults)
  }

  lemma LookSummarizes(row: Option<Payload>, faults: seq<Fault>)
    requires Summarizes(row, faults)
    ensures Summarizes(Visible(row), Noticed(faults))
  {
    if faults != [] { NormTwice(faults[|faults| - 1].category); }
  }

  lemma FailureSummarizes(row: Option<Payload>, faults: seq<Fault>, category: string, at: nat)
    requires Summarizes(row, faults) && (faults == [] ==> row == None)
    ensures Summarizes(Some(Recorded(row, category, at)), faults + [Fault(category, at)])
  {
    var more, n := faults + [Fault(category, at)], |faults|;
    assert more[..n] == faults;
    RepeatsInPrefix(more, n);
    FrozenSince(faults);
    if AnyRepeat(faults) {
      var i :| 0 <= i < n && Repeats(faults, i);
      assert Repeats(more, i);
    }
    RunMeansRepeat(faults);
  }

  lemma RunMeansRepeat(faults: seq<Fault>)
    ensures faults != [] ==> TrailingRun(faults) >= 1
    ensures TrailingRun(faults) >= 2 ==> AnyRepeat(faults)
  {
    if TrailingRun(faults) >= 2 { assert Repeats(faults, |faults| - 1); }
  }

  /** Over every log, the stored row is the summary of the account's failures since the row was last away: the count is
      the length of the trailing run of equal categories, it is frozen exactly when some failure repeated the one before,
      and the freezing time is that of the first such failure. */
  lemma {:induction false} RowSummarizesLog(log: seq<Event>)
    ensures Summarizes(RowAfter(log), Faults(log))
  {
    if log != [] {
      var before := log[..|log| - 1];
      RowSummarizesLog(before);
      LookSummarizes(RowAfter(before), Faults(before));
      match log[|log| - 1]
      case Failure(category, at) => FailureSummarizes(Visible(RowAfter(before)), Noticed(Faults(before)), category, at);
      case _ =>
    }
  }

  /** The last `run` failures repeat one another, and the first of them does not repeat the one before it. */
  ghost predicate IsTrailingRun(faults: seq<Fault>, run: nat) {
    && run <= |faults| && (faults != [] ==> run >= 1)
    && (forall i :: |faults| - run < i < |faults| ==> Repeats(faults, i))
    && (0 < run ==> !Repeats(faults, |faults| - run))
  }

  lemma {:induction false} RunIsTrailing(faults: seq<Fault>)
    ensures IsTrailingRun(faults, TrailingRun(faults))
  {
    if faults != [] && Repeats(faults, |faults| - 1) {
      var before := faults[..|faults| - 1];
      RunIsTrailing(before);
      OneLonger(faults, before, TrailingRun(before));
    }
  }

  lemma OneLonger(faults: seq<Fault>, before: seq<Fault>, run: nat)
    requires faults != [] && before == faults[..|faults| - 1] && Repeats(faults, |faults| - 1) && IsTrailingRun(before, run)
    ensures IsTrailingRun(faults, run + 1)
  {
    RepeatsInPrefix(faults, |before|);
    forall i | |faults| - (run + 1) < i < |faults| ensures Repeats(faults, i) {
      if i < |before| { assert Repeats(before, i); }
    }
  }

  // --------------------------------------------------------------- freezing

  predicate Frozen(row: Option<Payload>) { Visible(row).Some? && row.value.frozen }

  /** What unfreezes an account: clearing it, or recording a failure of a category that is not the account's, which the worker
      does not do. */
  predicate Unfreezes(ev: Event) {
    ev.Clear? || (ev.Failure? && Norm(ev.category) == "route_unsupported")
  }

  /** A frozen account stays frozen, since the same time, through anything else: selective clears and other failures do
      not matter. */
  lemma {:induction false} FrozenUntil(row: Option<Payload>, events: seq<Event>)
    requires Frozen(row)
    ensures (forall i :: 0 <= i < |events| ==> !Unfreezes(events[i]))
            ==> Frozen(Run(row, events)) && (row.value.frozenAt.Some? ==> Run(row, events).value.frozenAt == row.value.frozenAt)
  {
    if events != [] && forall i :: 0 <= i < |events| ==> !Unfreezes(events[i]) {
      FrozenUntil(row, events[..|events| - 1]);
      var last := Run(row, events[..|events| - 1]);
      NormTwice(last.value.category);
      assert !Unfreezes(events[|events| - 1]);
      if events[|events| - 1].Failure? { NormTwice(events[|events| - 1].category); }
    }
  }

  function Run(row: Option<Payload>, events: seq<Event>): Option<Payload> {
    if events == [] then row else Next(Run(row, events[..|events| - 1]), events[|events| - 1])
  }

  /** And each of them does unfreeze it, the failure as soon as somebody looks. */
  lemma UnfreezingIff(row: Option<Payload>, ev: Event)
    requires Frozen(row)
    ensures Frozen(Next(row, ev)) <==> !Unfreezes(ev)
  {
    NormTwice(row.value.category);
    if ev.Failure? { NormTwice(ev.category); }
  }

  // ------------------------------------------------- the guard as it is called

  /** A category as the worker gives it: normalised, and the account's own. */
  predicate IsAccountCategory(category: string) {
    Norm(category) == category && category != "route_unsupported"
  }

  /** A log of such failures. */
  ghost predicate IsAccountLog(log: seq<Event>) {
    forall i :: 0 <= i < |log| && log[i].Failure? ==> IsAccountCategory(log[i].category)
  }

  /** The event leaves a row of that category that is not frozen. */
  predicate Spares(ev: Event, category: string) {
    ev.Look? || (ev.ClearIf? && NormAll(ev.categories) != {} && category !in NormAll(ev.categories))
  }

  ghost predicate SparedBetween(log: seq<Event>, i: nat, j: nat, category: string)
    requires j <= |log|
  {
    forall k :: i < k < j ==> Spares(log[k], category)
  }

  /** Two failures of one category with nothing between them that counts or clears. */
  ghost predicate Adjacent(log: seq<Event>, i: nat, j: nat)
    requires i < j < |log|
  {
    log[i].Failure? && log[j].Failure? && log[i].category == log[j].category && SparedBetween(log, i, j, log[i].category)
  }

  ghost predicate NoClearAfter(log: seq<Event>, j: nat) {
    forall k :: j < k < |log| ==> !log[k].Clear?
  }

  /** Two adjacent failures of one category, and no full clear since. */
  ghost predicate RepeatedSinceClear(log: seq<Event>) {
    exists i, j :: 0 <= i < j < |log| && Adjacent(log, i, j) && NoClearAfter(log, j)
  }

  /** A failure of that category with nothing after it that counts or clears. */
  ghost predicate LastFailureIs(log: seq<Event>, category: string) {
    exists i :: 0 <= i < |log| && log[i].Failure? && log[i].category == category && SparedBetween(log, i, |log|, category)
  }

  lemma LastFailureNext(log: seq<Event>, ev: Event, category: string)
    ensures LastFailureIs(log + [ev], category)
            <==> (ev.Failure? && ev.category == category) || (Spares(ev, category) && LastFailureIs(log, category))
  {
    var more, n := log + [ev], |log|;
    if LastFailureIs(more, category) {
      var i :| 0 <= i < |more| && more[i].Failure? && more[i].category == category && SparedBetween(more, i, |more|, category);
      if i < n {
        assert Spares(more[n], category);
        forall k | i < k < n ensures Spares(log[k], category) { assert more[k] == log[k]; }
        assert log[i] == more[i] && SparedBetween(log, i, n, category);
      }
    }
    if ev.Failure? && ev.category == category { assert more[n] == ev && SparedBetween(more, n, |more|, category); }
    if Spares(ev, category) && LastFailureIs(log, category) {
      var i :| 0 <= i < n && log[i].Failure? && log[i].category == category && SparedBetween(log, i, n, category);
      assert more[i] == log[i] && SparedBetween(more, i, |more|, category);
    }
  }

  lemma RepeatedNext(log: seq<Event>, ev: Event)
    ensures RepeatedSinceClear(log + [ev])
            <==> !ev.Clear? && (RepeatedSinceClear(log) || (ev.Failure? && LastFailureIs(log, ev.category)))
  {
    var more, n := log + [ev], |log|;
    if RepeatedSinceClear(more) {
      var i, j :| 0 <= i < j < |more| && Adjacent(more, i, j) && NoClearAfter(more, j);
      AdjacentInPrefix(log, ev, i, j);
      if j < n {
        assert !more[n].Clear?;
        assert forall k :: j < k < n ==> log[k] == more[k];
      }
    }
    if !ev.Clear? && RepeatedSinceClear(log) {
      var i, j :| 0 <= i < j < n && Adjacent(log, i, j) && NoClearAfter(log, j);
      AdjacentInPrefix(log, ev, i, j);
      assert NoClearAfter(more, j);
    }
    if ev.Failure? && LastFailureIs(log, ev.category) {
      var i :| 0 <= i < n && log[i].Failure? && log[i].category == ev.category && SparedBetween(log, i, n, ev.category);
      AdjacentInPrefix(log, ev, i, n);
      assert NoClearAfter(more, n);
    }
  }

  lemma AdjacentInPrefix(log: seq<Event>, ev: Event, i: nat, j: nat)
    requires i < j <= |log|
    ensures j < |log| ==> (Adjacent(log + [ev], i, j) <==> Adjacent(log, i, j))
    ensures j == |log| ==> (Adjacent(log + [ev], i, j)
                            <==> log[i].Failure? && ev.Failure? && log[i].category == ev.category && SparedBetween(log, i, j, ev.category))
  {
    var more := log + [ev];
    assert more[i] == log[i];
    forall k | i < k < j ensures more[k] == log[k] {}
    forall category ensures SparedBetween(more, i, j, category) <==> SparedBetween(log, i, j, category) {}
  }

  /** What the row shows of the log: it is frozen if two adjacent failures of one category came since the last full clear,
      and it holds the category of the last failure that has not been cleared. */
  ghost predicate ShowsLog(row: Option<Payload>, log: seq<Event>) {
    && (row.Some? ==> IsAccountCategory(row.value.category) && row.value.count >= 1)
    && ((row.Some? && row.value.frozen) <==> RepeatedSinceClear(log))
    && (row.Some? && !row.value.frozen ==> LastFailureIs(log, row.value.category))
    && (forall category :: LastFailureIs(log, category) ==> row.Some? && row.value.category == category)
  }

  lemma ShowsNext(row: Option<Payload>, log: seq<Event>, ev: Event)
    requires ShowsLog(row, log) && (ev.Failure? ==> IsAccountCategory(ev.category))
    ensures ShowsLog(Next(row, ev), log + [ev])
  {
    RepeatedNext(log, ev);
    assert Visible(row) == row;
    forall category ensures LastFailureIs(log + [ev], category)
                            <==> (ev.Failure? && ev.category == category) || (Spares(ev, category) && LastFailureIs(log, category))
    {
      LastFailureNext(log, ev, category);
    }
    if ev.Failure? { assert Visible(Next(row, ev)) == Next(row, ev); }
  }

  lemma {:induction false} RowShowsLog(log: seq<Event>)
    requires IsAccountLog(log)
    ensures ShowsLog(RowAfter(log), log)
  {
    if log != [] {
      var before, last := log[..|log| - 1], log[|log| - 1];
      assert forall i :: 0 <= i < |before| ==> before[i] == log[i];
      RowShowsLog(before);
      assert log == before + [last];
      assert last.Failure? ==> IsAccountCategory(log[|log| - 1].category);
      ShowsNext(RowAfter(before), before, last);
    }
  }

  /** As the worker calls it, the guard freezes an account exactly when two adjacent failures of one category have come since
      the last full clear, whatever selective clears, other failures and looks there were besides. */
  lemma FrozenIffRepeated(log: seq<Event>)
    requires IsAccountLog(log)
    ensures Frozen(RowAfter(log)) <==> RepeatedSinceClear(log)
  {
    RowShowsLog(log);
  }

  // ---------------------------------------------------- categories of another kind

  /** The worker gives normalised categories only. One that is not in its normalised form would never count as the same
      again, so that such failures alone would never freeze an account: two failures in a row freeze it exactly when the
      second is given as the first is normalised. */
  lemma SecondFailureFreezesIff(category: string, again: string, at: nat, later: nat)
    requires Norm(category) !in NON_ACCOUNT_CATEGORIES && Norm(again) !in NON_ACCOUNT_CATEGORIES
    ensures Frozen(RowAfter([Failure(category, at), Failure(again, later)])) <==> Norm(category) == again
    ensures again != Norm(again) ==> Norm(category) != again
  {
    var log := [Failure(category, at), Failure(again, later)];
    assert log[..1] == [Failure(category, at)] && log[..1][..0] == [];
    var first := Recorded(None, category, at);
    assert RowAfter(log[..1]) == Some(first) && !first.frozen && first.count == 1;
    NormTwice(category);
    NormTwice(again);
    assert Visible(Some(first)) == Some(first);
    assert RowAfter(log) == Some(Recorded(Some(first), again, later));
  }

  /** Two identical failures spelled with a capital would not freeze an account. */
  lemma CapitalsNeverFreeze()
    ensures !Frozen(RowAfter([Failure("Network", 1), Failure("Network", 2)]))
  {
    var given := "Network";
    StripStrips(given);
    assert Strip(given) == given;
    assert Norm(given)[0] == 'n';
    NormTwice(given);
    assert Norm(given) != "route_unsupported" by { assert |Norm(given)| == 7; }
    SecondFailureFreezesIff(given, given, 1, 2);
  }

  // --------------------------------------------------------------- the store

  /** The hash fields of one user's accounts. */
  class GuardStore {
    var rows: map<int, Payload>

    constructor ()
      ensures rows == map[]
    {
      rows := map[];
    }

    ghost function Row(account: int): Option<Payload>
      reads this
    {
      if account in rows then Some(rows[account]) else None
    }

    method GetState(account: int) returns (found: Option<Payload>)
      modifies this
      ensures found == Visible(old(Row(account)))
      ensures Row(account).Some? == found.Some? && Normalizes(Row(account), found)
      ensures rows == if found.Some? then old(rows) else old(rows) - {account}
    {
      if account !in rows { return None; }
      var normalized := Normalized(rows[account]);
      NormTwice(rows[account].category);
      if !Kept(normalized) {
        ClearAccount(account);
        return None;
      }
      return Some(normalized);
    }

    method ClearAccount(account: int)
      modifies this
      ensures rows == old(rows) - {account}
    {
      rows := rows - {account};
    }

    method RecordFailure(account: int, category: string, now: nat) returns (written: Payload)
      modifies this
      ensures Some(written) == Next(old(Row(account)), Failure(category, now))
      ensures rows == old(rows)[account := written]
    {
      var existing := GetState(account);
      var sameCategory := (if existing.Some? then existing.value.category else "") == category;
      var consecutive := if sameCategory then (if existing.Some? then existing.value.count else 0) + 1 else 1;
      var isFrozen := (existing.Some? && existing.value.frozen) || consecutive >= 2;
      var frozenAt := None;
      if isFrozen {
        frozenAt := Some(if existing.Some? && existing.value.frozenAt.Some? then existing.value.frozenAt.value else now);
      }
      written := Payload(Norm(category), consecutive, isFrozen, now, frozenAt);
      rows := rows[account := written];
    }

    method ClearNonFrozenByCategories(account: int, categories: set<string>) returns (cleared: bool)
      modifies this
      ensures cleared == Clears(Visible(old(Row(account))), categories)
      ensures Normalizes(Row(account), Next(old(Row(account)), ClearIf(categories)))
      ensures rows - {account} == old(rows) - {account}
    {
      var state := GetState(account);
      if state.None? || state.value.frozen { return false; }
      var normalized := NormAll(categories);
      if normalized != {} && state.value.category !in normalized { return false; }
      ClearAccount(account);
      return true;
    }

    /** `list_states`: what can be seen of every account; rows not to be kept are cleared if their account id is a
        positive number. */
    method ListStates() returns (states: map<int, Payload>)
      modifies this
      ensures forall account :: account in states <==> Visible(old(Row(account))).Some?
      ensures forall account :: account in states ==> states[account] == Visible(old(Row(account))).value
      ensures forall account :: account in rows <==> account in old(rows) && (account in states || account <= 0)
      ensures forall account :: account in rows ==> rows[account] == old(rows)[account]
    {
      states := map[];
      var stale: set<int>, left := {}, rows.Keys;
      while left != {}
        invariant left <= rows.Keys && rows == old(rows)
        invariant forall account :: account in states <==> account in rows.Keys - left && Kept(Normalized(rows[account]))
        invariant forall account :: account in states ==> states[account] == Normalized(rows[account])
        invariant stale == set account | account in rows.Keys - left && !Kept(Normalized(rows[account]))
        decreases left
      {
        var account := AnyOf(left);
        var normalized := Normalized(rows[account]);
        if Kept(normalized) { states := states[account := normalized]; } else { stale := stale + {account}; }
        left := left - {account};
      }
      ClearAccounts(stale);
    }

    method ClearAccounts(accounts: set<int>)
      modifies this
      ensures rows == map account | account in old(rows) && !(account in accounts && account > 0) :: old(rows)[account]
    {
      var left := accounts;
      while left != {}
        invariant left <= accounts
        invariant rows == map account | account in old(rows) && !(account in accounts - left && account > 0) :: old(rows)[account]
        decreases left
      {
        var account := AnyOf(left);
        left := left - {account};
        if account > 0 { ClearAccount(account); }
      }
    }
  }

  /** The stored row is `seen`, up to the spelling of its category. */
  ghost predicate Normalizes(row: Option<Payload>, seen: Option<Payload>) {
    row.Some? == seen.Some? && (row.Some? ==> Normalized(row.value) == Normalized(seen.value))
  }
}

/** Filling gaps in market data (`market_data_monitor_service`): which symbols go first, how they are cut into tasks, and
    how tasks are dispatched and collected. */
module Backfill {
  import opened Prelude
  import opened Text
  import opened Sorting

  // ---------------------------------------------------------------- priority

  /** What the cache says of a symbol: 0 nothing, 1 something unusable, 2 something usable, and since when. */
  datatype Age = Age(kind: nat, since: real)

  function AgeOf(ages: map<string, Age>, symbol: string): Age {
    if symbol in ages then ages[symbol] else Age(0, 0.0)
  }

  predicate GoesFirst(ages: map<string, Age>, a: string, b: string) {
    var x, y := AgeOf(ages, a), AgeOf(ages, b);
    x.kind < y.kind || (x.kind == y.kind && (x.since < y.since || (x.since == y.since && Less(a, b))))
  }

  function ByAge(ages: map<string, Age>): (string, string) -> bool {
    (a: string, b: string) => GoesFirst(ages, a, b)
  }

  const BY_NAME: (string, string) -> bool := (a: string, b: string) => Less(a, b)

  /** The different symbols that are not blank, without their blanks. */
  function Unique(symbols: seq<string>): seq<string> {
    if symbols == [] then []
    else
      var before, last := Unique(symbols[..|symbols| - 1]), Strip(symbols[|symbols| - 1]);
      if last == "" || last in before then before else before + [last]
  }

  /** `_sort_symbols_by_backfill_priority`. */
  function Prioritized(ages: map<string, Age>, symbols: seq<string>): seq<string> {
    Sort(Sort(Unique(symbols), BY_NAME), ByAge(ages))
  }

  /** `x` is one of the symbols, blanks aside. */
  ghost predicate Names(symbols: seq<string>, x: string) {
    exists i :: 0 <= i < |symbols| && Strip(symbols[i]) == x
  }

  lemma {:induction false} UniqueAre(symbols: seq<string>)
    ensures Distinct(Unique(symbols))
    ensures forall x :: x in Unique(symbols) <==> x != "" && Names(symbols, x)
  {
    if symbols != [] {
      var n := |symbols| - 1;
      UniqueAre(symbols[..n]);
      forall x ensures x in Unique(symbols) <==> x != "" && Names(symbols, x) {
        LastSymbolAdds(symbols, symbols[..n], x);
      }
    }
  }

  lemma LastSymbolAdds(symbols: seq<string>, before: seq<string>, x: string)
    requires symbols != [] && before == symbols[..|symbols| - 1]
    ensures Names(symbols, x) <==> Strip(symbols[|symbols| - 1]) == x || Names(before, x)
  {
    if Names(before, x) {
      var i :| 0 <= i < |before| && Strip(before[i]) == x;
      assert Strip(symbols[i]) == x;
    }
    if Names(symbols, x) {
      var i :| 0 <= i < |symbols| && Strip(symbols[i]) == x;
      if i < |before| { assert Strip(before[i]) == x; }
    }
  }

  lemma AgeOrderRanks(ages: map<string, Age>)
    ensures Ranks(ByAge(ages)) && forall xs :: Separates(xs, ByAge(ages))
  {
    var first := ByAge(ages);
    forall a, b | first(a, b) ensures !first(b, a) { LessIsTotal(a, b); }
    forall a, b ensures a == b || first(a, b) || first(b, a) { LessIsTotal(a, b); }
    forall a, b, c | !first(b, a) && !first(c, b) ensures !first(c, a) {
      LessIsTotal(a, b);
      LessIsTotal(b, c);
      LessIsTotal(a, c);
      if Less(a, b) && Less(b, c) { LessIsTransitive(a, b, c); }
    }
  }

  /** The symbols to fill, each once, unknown ones first, then unusable and then usable ones, the longest unchanged first. */
  lemma PrioritizedAre(ages: map<string, Age>, symbols: seq<string>)
    ensures Distinct(Prioritized(ages, symbols))
    ensures forall x :: x in Prioritized(ages, symbols) <==> x != "" && Names(symbols, x)
    ensures InOrder(Prioritized(ages, symbols), ByAge(ages)) && MostUrgentFirst(ages, Prioritized(ages, symbols))
  {
    var named := Sort(Unique(symbols), BY_NAME);
    UniqueAre(symbols);
    SortKeeps(Unique(symbols), BY_NAME);
    SortKeepsDistinct(Unique(symbols), BY_NAME);
    SortKeeps(named, ByAge(ages));
    SortKeepsDistinct(named, ByAge(ages));
    AgeOrderRanks(ages);
    SortOrders(named, ByAge(ages));
    OrderedAreUrgent(ages, Prioritized(ages, symbols));
  }

  lemma OrderedAreUrgent(ages: map<string, Age>, ordered: seq<string>)
    requires InOrder(ordered, ByAge(ages)) && Distinct(ordered)
    ensures MostUrgentFirst(ages, ordered)
  {
    forall i, j | 0 <= i < j < |ordered| ensures AsUrgent(ages, ordered[i], ordered[j]) {
      assert !ByAge(ages)(ordered[j], ordered[i]);
      LessIsTotal(ordered[i], ordered[j]);
    }
  }

  /** Symbols the cache knows nothing of come first, then those with unusable and then those with usable data; of two in the
      same state the one that has been so for longer; and of two since the same time the first by name. */
  ghost predicate MostUrgentFirst(ages: map<string, Age>, symbols: seq<string>) {
    forall i, j :: 0 <= i < j < |symbols| ==> AsUrgent(ages, symbols[i], symbols[j])
  }

  predicate AsUrgent(ages: map<string, Age>, a: string, b: string) {
    var x, y := if a in ages then ages[a] else Age(0, 0.0), if b in ages then ages[b] else Age(0, 0.0);
    x.kind <= y.kind && (x.kind == y.kind ==> x.since <= y.since) && (x == y ==> Less(a, b))
  }

  /** The order depends on the set of symbols only. */
  lemma PriorityIgnoresOrder(ages: map<string, Age>, symbols: seq<string>, others: seq<string>)
    requires forall x :: Names(symbols, x) <==> Names(others, x)
    ensures Prioritized(ages, symbols) == Prioritized(ages, others)
  {
    var a, b := Prioritized(ages, symbols), Prioritized(ages, others);
    PrioritizedAre(ages, symbols);
    PrioritizedAre(ages, others);
    AgeOrderRanks(ages);
    OrderIsUnique(a, b, ByAge(ages));
  }

  // ------------------------------------------------------------------ chunks

  function Concat(chunks: seq<seq<string>>): seq<string> {
    if chunks == [] then [] else Concat(chunks[..|chunks| - 1]) + chunks[|chunks| - 1]
  }

  /** `_chunk_symbols`: a size that is not positive means one chunk. Nothing is lost or reordered, and all chunks but the
      last are full. */
  method ChunkSymbols(symbols: seq<string>, size: int) returns (chunks: seq<seq<string>>)
    ensures Concat(chunks) == symbols
    ensures size <= 0 ==> chunks == [symbols]
    ensures size > 0 ==> forall i :: 0 <= i < |chunks| ==> 0 < |chunks[i]| <= size && (i < |chunks| - 1 ==> |chunks[i]| == size)
  {
    if size <= 0 {
      chunks := [symbols];
      assert chunks[..0] == [];
      return;
    }
    chunks := [];
    var index := 0;
    while index < |symbols|
      invariant 0 <= index
      invariant Concat(chunks) == symbols[..if index < |symbols| then index else |symbols|]
      invariant forall i :: 0 <= i < |chunks| ==> 0 < |chunks[i]| <= size && (index <= |symbols| || i < |chunks| - 1 ==> |chunks[i]| == size)
    {
      var end := if index + size < |symbols| then index + size else |symbols|;
      assert symbols[..end] == symbols[..index] + symbols[index..end];
      assert (chunks + [symbols[index..end]])[..|chunks|] == chunks;
      chunks := chunks + [symbols[index..end]];
      index := index + size;
    }
    assert symbols[..|symbols|] == symbols;
  }

  // -------------------------------------------------------------------- tasks

  datatype Spec = Spec(taskKey: string, symbols: seq<string>)

  function SymbolsOf(specs: seq<Spec>): seq<string> {
    if specs == [] then [] else SymbolsOf(specs[..|specs| - 1]) + specs[|specs| - 1].symbols
  }

  /** The symbols of one exchange and market for one type of task, and how many go into one task. */
  datatype Group = Group(exchange: string, market: string, taskType: string, symbols: seq<string>, size: int)

  function TaskKey(g: Group, index: nat): string {
    g.exchange + ":" + g.market + ":" + g.taskType + ":" + Decimal(index)
  }

  predicate IsClean(g: Group) { ':' !in g.exchange && ':' !in g.market && ':' !in g.taskType }

  predicate SameName(g: Group, h: Group) { g.exchange == h.exchange && g.market == h.market && g.taskType == h.taskType }

  /** Tasks of one group in the loops of `_build_backfill_task_specs`: together they hold every symbol of the group once, most
      urgent first, under numbered keys. */
  method BuildGroupSpecs(g: Group, ages: map<string, Age>) returns (specs: seq<Spec>)
    ensures SymbolsOf(specs) == Prioritized(ages, g.symbols)
    ensures forall i :: 0 <= i < |specs| ==> specs[i].taskKey == TaskKey(g, i + 1)
  {
    var ordered := Prioritized(ages, g.symbols);
    var chunks := ChunkSymbols(ordered, g.size);
    specs := [];
    for index := 0 to |chunks|
      invariant |specs| == index && SymbolsOf(specs) == Concat(chunks[..index])
      invariant forall i :: 0 <= i < |specs| ==> specs[i].taskKey == TaskKey(g, i + 1)
    {
      assert chunks[..index + 1][..index] == chunks[..index];
      var spec := Spec(TaskKey(g, index + 1), chunks[index]);
      OneMoreSpec(specs, spec);
      specs := specs + [spec];
    }
    assert chunks[..|chunks|] == chunks;
  }

  lemma {:induction false} OneMoreSpec(specs: seq<Spec>, spec: Spec)
    ensures SymbolsOf(specs + [spec]) == SymbolsOf(specs) + spec.symbols
  {
    assert (specs + [spec])[..|specs|] == specs;
  }

  function AllPrioritized(groups: seq<Group>, ages: seq<map<string, Age>>): seq<string>
    requires |groups| == |ages|
  {
    if groups == [] then []
    else
      var n := |groups| - 1;
      AllPrioritized(groups[..n], ages[..n]) + Prioritized(ages[n], groups[n].symbols)
  }

  /** Some task of that group has this key. */
  ghost predicate HasKeyOf(key: string, g: Group) {
    exists i: nat :: key == TaskKey(g, i)
  }

  ghost predicate HasKeyOfSome(key: string, groups: seq<Group>) {
    exists j :: 0 <= j < |groups| && HasKeyOf(key, groups[j])
  }

  /** Every spec belongs to one of the groups. */
  ghost predicate OfGroups(specs: seq<Spec>, groups: seq<Group>) {
    forall k :: 0 <= k < |specs| ==> HasKeyOfSome(specs[k].taskKey, groups)
  }

  ghost predicate DifferentKeys(specs: seq<Spec>) {
    forall i, j :: 0 <= i < j < |specs| ==> specs[i].taskKey != specs[j].taskKey
  }

  /** `_build_backfill_task_specs` over its groups, which differ in exchange, market or type: no two tasks of the round have the
      same key, and together they hold every symbol of every group once. */
  method BuildTaskSpecs(groups: seq<Group>, ages: seq<map<string, Age>>) returns (specs: seq<Spec>)
    requires |groups| == |ages| && (forall i :: 0 <= i < |groups| ==> IsClean(groups[i]))
    requires forall i, j :: 0 <= i < j < |groups| ==> !SameName(groups[i], groups[j])
    ensures SymbolsOf(specs) == AllPrioritized(groups, ages) && DifferentKeys(specs)
  {
    specs := [];
    for n := 0 to |groups|
      invariant SymbolsOf(specs) == AllPrioritized(groups[..n], ages[..n])
      invariant OfGroups(specs, groups[..n]) && DifferentKeys(specs)
    {
      assert groups[..n + 1][..n] == groups[..n] && ages[..n + 1][..n] == ages[..n];
      var more := BuildGroupSpecs(groups[n], ages[n]);
      SymbolsAppend(specs, more);
      KeysOfGroupAreNew(specs, groups, n, more);
      specs := specs + more;
    }
    assert groups[..|groups|] == groups && ages[..|groups|] == ages;
  }

  lemma {:induction false} SymbolsAppend(specs: seq<Spec>, more: seq<Spec>)
    ensures SymbolsOf(specs + more) == SymbolsOf(specs) + SymbolsOf(more)
  {
    if more == [] {
      assert specs + more == specs;
    } else {
      var n := |more| - 1;
      var all := specs + more;
      SymbolsAppend(specs, more[..n]);
      assert all[..|all| - 1] == specs + more[..n] && all[|all| - 1] == more[n];
      assert SymbolsOf(all) == SymbolsOf(specs + more[..n]) + more[n].symbols;
    }
  }

  lemma {:induction false} KeysOfGroupAreNew(specs: seq<Spec>, groups: seq<Group>, n: nat, more: seq<Spec>)
    requires n < |groups| && (forall i :: 0 <= i < |groups| ==> IsClean(groups[i]))
    requires forall i, j :: 0 <= i < j < |groups| ==> !SameName(groups[i], groups[j])
    requires OfGroups(specs, groups[..n]) && DifferentKeys(specs)
    requires forall i :: 0 <= i < |more| ==> more[i].taskKey == TaskKey(groups[n], i + 1)
    ensures OfGroups(specs + more, groups[..n + 1]) && DifferentKeys(specs + more)
  {
    var all := specs + more;
    var now := groups[..n + 1];
    forall k | 0 <= k < |all| ensures HasKeyOfSome(all[k].taskKey, now) {
      if k < |specs| {
        assert HasKeyOfSome(specs[k].taskKey, groups[..n]);
        var j :| 0 <= j < n && HasKeyOf(specs[k].taskKey, groups[..n][j]);
        assert HasKeyOf(all[k].taskKey, now[j]);
      } else {
        assert HasKeyOf(all[k].taskKey, now[n]);
      }
    }
    forall i, j | 0 <= i < j < |all| ensures all[i].taskKey != all[j].taskKey {
      if j >= |specs| {
        if i < |specs| {
          assert HasKeyOfSome(specs[i].taskKey, groups[..n]);
          var g :| 0 <= g < n && HasKeyOf(specs[i].taskKey, groups[..n][g]);
          var index :| specs[i].taskKey == TaskKey(groups[g], index);
          TaskKeysTellApart(groups[g], index, groups[n], j - |specs| + 1);
        } else {
          TaskKeysTellApart(groups[n], i - |specs| + 1, groups[n], j - |specs| + 1);
        }
      }
    }
  }

  /** A task key can be read back: it tells the group and the number. */
  lemma {:induction false} TaskKeysTellApart(g: Group, i: nat, h: Group, j: nat)
    requires IsClean(g) && IsClean(h)
    ensures TaskKey(g, i) == TaskKey(h, j) <==> SameName(g, h) && i == j
  {
    if TaskKey(g, i) == TaskKey(h, j) {
      var a, b := g.taskType + ":" + Decimal(i), h.taskType + ":" + Decimal(j);
      assert TaskKey(g, i) == g.exchange + ":" + (g.market + ":" + a);
      assert TaskKey(h, j) == h.exchange + ":" + (h.market + ":" + b);
      SplitAtColon(g.exchange, g.market + ":" + a, h.exchange, h.market + ":" + b);
      SplitAtColon(g.market, a, h.market, b);
      SplitAtColon(g.taskType, Decimal(i), h.taskType, Decimal(j));
      DecimalIsInjective(i, j);
    }
  }

  // --------------------------------------------------------------- scheduling

  /** One submitted run of a task. */
  datatype Job = Job(taskKey: string, done: bool)

  datatype TaskState = TaskState(isRunning: bool, lastRound: nat)

  ghost predicate Running(jobs: seq<Job>, key: string) {
    exists j :: 0 <= j < |jobs| && jobs[j].taskKey == key && !jobs[j].done
  }

  /** No task has two jobs running at once. */
  ghost predicate OneRunning(jobs: seq<Job>) {
    forall i, j :: 0 <= i < j < |jobs| && jobs[i].taskKey == jobs[j].taskKey ==> jobs[i].done || jobs[j].done
  }

  /** The job on record for a key exists and is of that key, and a job that is still running is on record. */
  ghost predicate Recorded(jobs: seq<Job>, futures: map<string, nat>) {
    && (forall key :: key in futures ==> futures[key] < |jobs| && jobs[futures[key]].taskKey == key)
    && (forall j :: 0 <= j < |jobs| && !jobs[j].done ==> jobs[j].taskKey in futures && futures[jobs[j].taskKey] == j)
  }

  /** Submitting a job for a key with no job running. */
  lemma SubmitKeepsRecord(jobs: seq<Job>, futures: map<string, nat>, key: string)
    requires Recorded(jobs, futures) && (key in futures ==> jobs[futures[key]].done)
    ensures Recorded(jobs + [Job(key, false)], futures[key := |jobs|])
    ensures !Running(jobs, key) && Running(jobs + [Job(key, false)], key)
    ensures forall other :: Running(jobs, other) ==> Running(jobs + [Job(key, false)], other)
  {
    var more := jobs + [Job(key, false)];
    assert more[|jobs|].taskKey == key && !more[|jobs|].done;
    forall other | Running(jobs, other) ensures Running(more, other) {
      var j :| 0 <= j < |jobs| && jobs[j].taskKey == other && !jobs[j].done;
      assert more[j] == jobs[j];
    }
  }

  /** What one round of dispatching does: it only adds running jobs, for keys of the round of which none was running. */
  ghost predicate Dispatched(before: seq<Job>, after: seq<Job>, keys: seq<string>) {
    && before <= after
    && (forall j :: |before| <= j < |after| ==> after[j].taskKey in keys && !after[j].done && !Running(before, after[j].taskKey))
  }

  /** The jobs ever submitted, the latest job of a key, and what is known about each task. */
  class Scheduler {
    var jobs: seq<Job>
    var futures: map<string, nat>
    var states: map<string, TaskState>
    var round: nat

    constructor ()
      ensures Valid() && jobs == [] && futures == map[] && states == map[] && round == 0
    {
      jobs, futures, states, round := [], map[], map[], 0;
    }

    ghost predicate Valid()
      reads this
    {
      Recorded(jobs, futures)
    }

    /** The loop of `_dispatch_backfill_round` over the round's task keys: afterwards each of them has a job running, and
        none has two. */
    method DispatchRound(keys: seq<string>) returns (dispatched: nat, skipped: nat)
      requires Valid()
      modifies this
      ensures Valid() && OneRunning(jobs)
      ensures Dispatched(old(jobs), jobs, keys) && |jobs| == |old(jobs)| + dispatched && dispatched + skipped == |keys|
      ensures forall i :: 0 <= i < |keys| ==> Running(jobs, keys[i])
    {
      dispatched, skipped := 0, 0;
      if keys == [] { return; }
      round := round + 1;
      for i := 0 to |keys|
        invariant Valid() && dispatched + skipped == i
        invariant Dispatched(old(jobs), jobs, keys) && |jobs| == |old(jobs)| + dispatched
        invariant forall key :: Running(old(jobs), key) ==> Running(jobs, key)
        invariant forall k :: 0 <= k < i ==> Running(jobs, keys[k])
      {
        var key := keys[i];
        if key in futures && !jobs[futures[key]].done {
          skipped := skipped + 1;
          continue;
        }
        SubmitKeepsRecord(jobs, futures, key);
        states := states[key := TaskState(true, round)];
        futures := futures[key := |jobs|];
        jobs := jobs + [Job(key, false)];
        dispatched := dispatched + 1;
      }
    }

    /** The executor finishes a job. */
    method Finish(j: nat)
      requires Valid() && j < |jobs|
      modifies this`jobs
      ensures Valid() && OneRunning(jobs) && jobs == old(jobs)[j := old(jobs)[j].(done := true)]
    {
      jobs := jobs[j := jobs[j].(done := true)];
    }

    /** `_collect_completed_backfill_tasks`: the records of finished jobs go, and their tasks no longer count as running. */
    method CollectCompleted()
      requires Valid()
      modifies this`futures, this`states
      ensures Valid()
      ensures futures == map key | key in old(futures) && !jobs[old(futures)[key]].done :: old(futures)[key]
      ensures states.Keys == old(states).Keys
      ensures forall key :: key in states ==>
                              states[key] == if key in old(futures) && jobs[old(futures)[key]].done
                                             then old(states)[key].(isRunning := false) else old(states)[key]
    {
      var left := futures.Keys;
      while left != {}
        invariant left <= old(futures).Keys && Valid()
        invariant forall key :: key in futures <==> key in old(futures) && (key in left || !jobs[old(futures)[key]].done)
        invariant forall key :: key in futures ==> futures[key] == old(futures)[key]
        invariant states.Keys == old(states).Keys
        invariant forall key :: key in states ==>
                                  states[key] == if key in old(futures) && key !in left && jobs[old(futures)[key]].done
                                                 then old(states)[key].(isRunning := false) else old(states)[key]
        decreases left
      {
        var key := AnyOf(left);
        left := left - {key};
        if jobs[futures[key]].done {
          futures := futures - {key};
          if key in states { states := states[key := states[key].(isRunning := false)]; }
        }
      }
    }
  }
}

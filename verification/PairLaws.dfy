/** What pair generation promises: every two exchanges of a group once, with unique keys, whatever the order of the rows. */
module PairLaws {
  import opened Prelude
  import opened Text
  import opened Sorting
  import opened MarketPairs

  // ------------------------------------------------------- one group, deduplicated

  /** In one group a row's slot is its exchange. */
  ghost predicate Uniform(rows: seq<Listing>) {
    forall a, b :: a in rows && b in rows ==> (a.slot == b.slot <==> a.market.exchange == b.market.exchange)
  }

  /** Symbols are stored without blanks around them. */
  ghost predicate Tidy(rows: seq<Listing>) {
    forall r :: r in rows ==> r.trimmed == r.market.symbol
  }

  ghost predicate DistinctSlots(kept: seq<Listing>) {
    forall i, j :: 0 <= i < j < |kept| ==> kept[i].slot != kept[j].slot
  }

  /** `l` is the row kept for its slot: no complete row of `rows` there has an earlier symbol. */
  ghost predicate Best(rows: seq<Listing>, l: Listing) {
    l in rows && l.complete && forall r :: r in rows && r.complete && r.slot == l.slot ==> !Less(r.trimmed, l.trimmed)
  }

  ghost predicate Covers(kept: seq<Listing>, slot: SlotKey) {
    exists i :: 0 <= i < |kept| && kept[i].slot == slot
  }

  lemma {:induction false} ReplaceKeeps(kept: seq<Listing>, m: Listing)
    requires DistinctSlots(kept)
    ensures DistinctSlots(Replace(kept, m))
    ensures forall slot :: Covers(Replace(kept, m), slot) <==> Covers(kept, slot) || slot == m.slot
  {
    if exists i :: 0 <= i < |kept| && kept[i].slot == m.slot {
      var i :| 0 <= i < |kept| && kept[i].slot == m.slot;
      ReplaceAt(kept, m, i);
      CoversAfterUpdate(kept, m, i);
    } else {
      ReplaceNew(kept, m);
      CoversAfterAppend(kept, m);
    }
  }

  lemma CoversAfterUpdate(kept: seq<Listing>, m: Listing, i: nat)
    requires i < |kept| && kept[i].slot == m.slot
    ensures forall slot :: Covers(kept[i := m], slot) <==> Covers(kept, slot)
    ensures Covers(kept, m.slot)
  {
    forall slot ensures Covers(kept[i := m], slot) <==> Covers(kept, slot) {
      if Covers(kept, slot) {
        var j :| 0 <= j < |kept| && kept[j].slot == slot;
        assert kept[i := m][j].slot == slot;
      }
      if Covers(kept[i := m], slot) {
        var j :| 0 <= j < |kept| && kept[i := m][j].slot == slot;
        assert kept[j].slot == slot;
      }
    }
  }

  lemma CoversAfterAppend(kept: seq<Listing>, m: Listing)
    ensures forall slot :: Covers(kept + [m], slot) <==> Covers(kept, slot) || slot == m.slot
  {
    forall slot ensures Covers(kept + [m], slot) <==> Covers(kept, slot) || slot == m.slot {
      if Covers(kept, slot) {
        var j :| 0 <= j < |kept| && kept[j].slot == slot;
        assert (kept + [m])[j].slot == slot;
      }
      if slot == m.slot { assert (kept + [m])[|kept|].slot == slot; }
    }
  }

  lemma BestStays(rows: seq<Listing>, l: Listing, m: Listing)
    requires Best(rows, l) && (m.slot != l.slot || !Less(m.trimmed, l.trimmed))
    ensures Best(rows + [m], l)
  {
  }

  lemma BestIsNew(rows: seq<Listing>, m: Listing)
    requires m.complete && forall r :: r in rows && r.complete && r.slot == m.slot ==> !Less(r.trimmed, m.trimmed)
    ensures Best(rows + [m], m)
  {
    LessIsTotal(m.trimmed, m.trimmed);
  }

  /** Replacing keeps the best row of every slot. */
  lemma ReplaceKeepsBest(rows: seq<Listing>, kept: seq<Listing>, m: Listing, l: Listing)
    requires DistinctSlots(kept) && m.complete && Tidy(rows + [m]) && l in Replace(kept, m)
    requires forall k :: k in kept ==> Best(rows, k)
    requires forall r :: r in rows && r.complete ==> Covers(kept, r.slot)
    ensures Best(rows + [m], l)
  {
    if Covers(kept, m.slot) {
      var i :| 0 <= i < |kept| && kept[i].slot == m.slot;
      ReplaceAt(kept, m, i);
      assert Best(rows, kept[i]);
      if l in kept {
        LessIsTotal(m.trimmed, kept[i].trimmed);
        if l.slot == m.slot { SameSlotSameRow(kept, l, i); }
        KeptIsNotWorse(kept, m, l, i);
        BestStays(rows, l, m);
      } else {
        forall r | r in rows && r.complete && r.slot == m.slot ensures !Less(r.trimmed, m.trimmed) {
          BetterThanBest(r.trimmed, m.trimmed, kept[i].trimmed);
        }
        BestIsNew(rows, m);
      }
    } else {
      ReplaceNew(kept, m);
      if l in kept { BestStays(rows, l, m); } else { BestIsNew(rows, m); }
    }
  }

  lemma SameSlotSameRow(kept: seq<Listing>, l: Listing, i: nat)
    requires DistinctSlots(kept) && l in kept && i < |kept| && kept[i].slot == l.slot
    ensures l == kept[i]
  {
  }

  /** A kept row that is still there after replacing is not beaten by the new one. */
  lemma KeptIsNotWorse(kept: seq<Listing>, m: Listing, l: Listing, i: nat)
    requires DistinctSlots(kept) && i < |kept| && kept[i].slot == m.slot && l in kept
    requires l in if Less(m.trimmed, kept[i].market.symbol) then kept[i := m] else kept
    requires kept[i].trimmed == kept[i].market.symbol && m.trimmed == m.market.symbol
    ensures m.slot != l.slot || !Less(m.trimmed, l.trimmed)
  {
    LessIsTotal(m.trimmed, m.trimmed);
    if m.slot == l.slot {
      SameSlotSameRow(kept, l, i);
    }
  }

  lemma BetterThanBest(r: string, m: string, best: string)
    requires Less(m, best) && !Less(r, best)
    ensures !Less(r, m)
  {
    if Less(r, m) { LessIsTransitive(r, m, best); }
  }

  /** Deduplication keeps exactly one row for every slot with a complete row, and it is the best one. */
  lemma {:induction false} DedupedAreBest(rows: seq<Listing>)
    requires Tidy(rows)
    ensures DistinctSlots(Deduped(rows))
    ensures forall l :: l in Deduped(rows) ==> Best(rows, l)
    ensures forall r :: r in rows && r.complete ==> Covers(Deduped(rows), r.slot)
  {
    if rows != [] {
      var before, last := rows[..|rows| - 1], rows[|rows| - 1];
      DedupedAreBest(before);
      assert rows == before + [last];
      if last.complete {
        ReplaceKeeps(Deduped(before), last);
        forall l | l in Deduped(rows) ensures Best(rows, l) { ReplaceKeepsBest(before, Deduped(before), last, l); }
      }
    }
  }

  // --------------------------------------------------------- one group, in order

  /** Exchanges in strictly ascending order. */
  ghost predicate Strict(ordered: seq<Market>) {
    forall i, j :: 0 <= i < j < |ordered| ==> Less(ordered[i].exchange, ordered[j].exchange)
  }

  ghost predicate DistinctExchanges(rows: seq<Listing>) {
    forall i, j :: 0 <= i < j < |rows| ==> rows[i].market.exchange != rows[j].market.exchange
  }

  lemma ExchangeOrderRanks()
    ensures Ranks(BY_EXCHANGE)
  {
    forall a, b | BY_EXCHANGE(a, b) ensures !BY_EXCHANGE(b, a) {
      LessIsTotal(a.exchange, b.exchange);
      LessIsTotal(a.symbol, b.symbol);
    }
    forall a, b, c | !BY_EXCHANGE(b, a) && !BY_EXCHANGE(c, b) ensures !BY_EXCHANGE(c, a) { NotLater(a, b, c); }
  }

  lemma NotLater(a: Market, b: Market, c: Market)
    requires !Precedes(b, a) && !Precedes(c, b)
    ensures !Precedes(c, a)
  {
    LessIsTotal(a.exchange, b.exchange);
    LessIsTotal(b.exchange, c.exchange);
    LessIsTotal(a.exchange, c.exchange);
    LessIsTotal(a.symbol, b.symbol);
    LessIsTotal(b.symbol, c.symbol);
    LessIsTotal(a.symbol, c.symbol);
    if Less(a.exchange, b.exchange) && Less(b.exchange, c.exchange) { LessIsTransitive(a.exchange, b.exchange, c.exchange); }
    if Less(a.symbol, b.symbol) && Less(b.symbol, c.symbol) { LessIsTransitive(a.symbol, b.symbol, c.symbol); }
  }

  lemma SortedInOrder(rows: seq<Listing>, sorted: seq<Market>)
    requires DistinctExchanges(rows) && sorted == Sort(Markets(rows), BY_EXCHANGE)
    ensures Strict(sorted) && |sorted| == |rows|
    ensures forall x :: x in sorted <==> x in Markets(rows)
  {
    var markets := Markets(rows);
    ExchangeOrderRanks();
    SortKeeps(markets, BY_EXCHANGE);
    SortOrders(markets, BY_EXCHANGE);
    SortKeepsDistinct(markets, BY_EXCHANGE);
    forall i, j | 0 <= i < j < |sorted| ensures Less(sorted[i].exchange, sorted[j].exchange) {
      assert sorted[i] in markets && sorted[j] in markets && sorted[i] != sorted[j];
      LessIsTotal(sorted[i].exchange, sorted[j].exchange);
      assert !BY_EXCHANGE(sorted[j], sorted[i]);
    }
  }

  ghost predicate IsBest(rows: seq<Listing>, x: Market) {
    exists l :: Best(rows, l) && l.market == x
  }

  ghost predicate Offers(ordered: seq<Market>, exchange: string) {
    exists i :: 0 <= i < |ordered| && ordered[i].exchange == exchange
  }

  /** The ordered markets of a group: one for every exchange with a complete row, the best one, in order of exchange. */
  lemma OrderedAre(rows: seq<Listing>)
    requires Tidy(rows) && Uniform(rows)
    ensures Strict(Ordered(rows))
    ensures forall x :: x in Ordered(rows) ==> IsBest(rows, x)
    ensures forall r :: r in rows && r.complete ==> Offers(Ordered(rows), r.market.exchange)
  {
    var kept := Deduped(rows);
    DedupedAreBest(rows);
    forall i, j | 0 <= i < j < |kept| ensures kept[i].market.exchange != kept[j].market.exchange {
      assert Best(rows, kept[i]) && Best(rows, kept[j]);
    }
    SortedInOrder(kept, Ordered(rows));
    forall x | x in Ordered(rows) ensures IsBest(rows, x) {
      var i :| 0 <= i < |kept| && Markets(kept)[i] == x;
      assert Best(rows, kept[i]);
    }
    forall r | r in rows && r.complete ensures Offers(Ordered(rows), r.market.exchange) {
      assert Covers(kept, r.slot);
      var i :| 0 <= i < |kept| && kept[i].slot == r.slot;
      assert Best(rows, kept[i]) && Markets(kept)[i] in Ordered(rows);
      var j :| 0 <= j < |Ordered(rows)| && Ordered(rows)[j] == kept[i].market;
    }
  }

  // ------------------------------------------------------------- the triangle

  /** Two pairs are told apart by their exchanges. */
  predicate SameExchanges(p: Pair, q: Pair) { p.left.exchange == q.left.exchange && p.right.exchange == q.right.exchange }

  ghost predicate NoRepeats(pairs: seq<Pair>) {
    forall i, j :: 0 <= i < j < |pairs| ==> !SameExchanges(pairs[i], pairs[j])
  }

  lemma {:induction false} PairsWithAre(left: Market, later: seq<Market>, symbol: string, funding: bool)
    requires Strict([left] + later)
    ensures var pairs := PairsWith(left, later, symbol, funding);
            |pairs| == |later| && forall i :: 0 <= i < |pairs| ==> pairs[i] == MakePair(left, later[i], symbol, funding)
  {
    if later != [] {
      var n := |later| - 1;
      var all := [left] + later;
      assert all[..|all| - 1] == [left] + later[..n];
      PrefixStrict(all, n + 1);
      PairsWithAre(left, later[..n], symbol, funding);
      assert Less(all[0].exchange, all[n + 1].exchange);
      LessIsTotal(left.exchange, later[n].exchange);
    }
  }

  lemma PrefixStrict(ordered: seq<Market>, n: nat)
    requires n <= |ordered| && Strict(ordered)
    ensures Strict(ordered[..n]) && Strict(ordered[n..])
  {
  }

  lemma RowOfTriangle(ordered: seq<Market>, i: nat, symbol: string, funding: bool)
    requires Strict(ordered) && i < |ordered|
    ensures var row := PairsWith(ordered[i], ordered[i + 1..], symbol, funding);
            && |row| == |ordered| - 1 - i
            && forall k :: 0 <= k < |row| ==> row[k] == MakePair(ordered[i], ordered[i + 1 + k], symbol, funding)
  {
    assert ordered[i..] == [ordered[i]] + ordered[i + 1..];
    PrefixStrict(ordered, i);
    PairsWithAre(ordered[i], ordered[i + 1..], symbol, funding);
  }

  /** `p` is the pair of two of the markets, the first being one of the first `n`. */
  ghost predicate PairOf(p: Pair, ordered: seq<Market>, n: nat, symbol: string, funding: bool) {
    exists i, j :: 0 <= i < j < |ordered| && i < n && p == MakePair(ordered[i], ordered[j], symbol, funding)
  }

  lemma {:induction false} TriangleIsLong(ordered: seq<Market>, n: nat, symbol: string, funding: bool)
    requires Strict(ordered) && n <= |ordered|
    ensures 2 * |Triangle(ordered, n, symbol, funding)| == n * (2 * |ordered| - n - 1)
  {
    if n > 0 {
      TriangleIsLong(ordered, n - 1, symbol, funding);
      RowOfTriangle(ordered, n - 1, symbol, funding);
      TriangleLength(n, |ordered|, |Triangle(ordered, n - 1, symbol, funding)|);
    }
  }

  /** The triangle holds every two markets once: it has the right members and no repeats. */
  lemma {:induction false} TriangleIsComplete(ordered: seq<Market>, n: nat, symbol: string, funding: bool, pairs: seq<Pair>)
    requires Strict(ordered) && n <= |ordered| && pairs == Triangle(ordered, n, symbol, funding)
    ensures NoRepeats(pairs) && forall p :: p in pairs <==> PairOf(p, ordered, n, symbol, funding)
  {
    if n > 0 {
      var before, row := Triangle(ordered, n - 1, symbol, funding), PairsWith(ordered[n - 1], ordered[n..], symbol, funding);
      TriangleIsComplete(ordered, n - 1, symbol, funding, before);
      RowOfTriangle(ordered, n - 1, symbol, funding);
      RowRepeatsNothing(ordered, n, symbol, funding, before, row);
      forall p ensures p in pairs <==> PairOf(p, ordered, n, symbol, funding) {
        RowAddsItsPairs(ordered, n, symbol, funding, before, row, p);
      }
    }
  }

  lemma TriangleLength(n: int, total: int, before: int)
    requires 2 * before == (n - 1) * (2 * total - n)
    ensures 2 * (before + total - n) == n * (2 * total - n - 1)
  {
  }

  lemma RowAddsItsPairs(ordered: seq<Market>, n: nat, symbol: string, funding: bool, before: seq<Pair>, row: seq<Pair>, p: Pair)
    requires 0 < n <= |ordered| && |row| == |ordered| - n
    requires p in before <==> PairOf(p, ordered, n - 1, symbol, funding)
    requires forall k :: 0 <= k < |row| ==> row[k] == MakePair(ordered[n - 1], ordered[n + k], symbol, funding)
    ensures p in before + row <==> PairOf(p, ordered, n, symbol, funding)
  {
    if p in row {
      var k :| 0 <= k < |row| && row[k] == p;
      assert p == MakePair(ordered[n - 1], ordered[n + k], symbol, funding);
    }
    if PairOf(p, ordered, n, symbol, funding) {
      var i, j :| 0 <= i < j < |ordered| && i < n && p == MakePair(ordered[i], ordered[j], symbol, funding);
      if i == n - 1 { assert row[j - n] == p; } else { assert PairOf(p, ordered, n - 1, symbol, funding); }
    }
  }

  lemma RowRepeatsNothing(ordered: seq<Market>, n: nat, symbol: string, funding: bool, before: seq<Pair>, row: seq<Pair>)
    requires 0 < n <= |ordered| && Strict(ordered) && |row| == |ordered| - n && NoRepeats(before)
    requires forall p :: p in before ==> PairOf(p, ordered, n - 1, symbol, funding)
    requires forall k :: 0 <= k < |row| ==> row[k] == MakePair(ordered[n - 1], ordered[n + k], symbol, funding)
    ensures NoRepeats(before + row)
  {
    var pairs := before + row;
    forall i, j | 0 <= i < j < |pairs| ensures !SameExchanges(pairs[i], pairs[j]) {
      if j >= |before| {
        if i >= |before| {
          DifferentPlaces(ordered, n + (i - |before|), n + (j - |before|));
        } else {
          assert pairs[i] in before;
          var a, b :| 0 <= a < b < |ordered| && a < n - 1 && pairs[i] == MakePair(ordered[a], ordered[b], symbol, funding);
          DifferentPlaces(ordered, a, n - 1);
        }
      }
    }
  }

  lemma DifferentPlaces(ordered: seq<Market>, i: nat, j: nat)
    requires Strict(ordered) && i < j < |ordered|
    ensures ordered[i].exchange != ordered[j].exchange
  {
    LessIsTotal(ordered[i].exchange, ordered[j].exchange);
  }

  // ----------------------------------------------------------------- all groups

  /** An exchange code as the configuration spells it: lower case, without blanks and colons. */
  predicate CleanCode(code: string) { Norm(code) == code && code != "" && ':' !in code }

  /** What holds of the rows that take part, when the enabled codes are clean and settlement assets have no blanks around
      them: a group is known by its symbol, and a slot in a group by its exchange. */
  ghost predicate WellFormed(rows: seq<Listing>) {
    && Tidy(rows)
    && (forall r :: r in rows ==> r.group == GroupKey(r.market.normalized, "USDT", true))
    && (forall r :: r in rows ==> CleanCode(r.market.exchange))
    && (forall a, b :: a in rows && b in rows && a.group == b.group ==> (a.slot == b.slot <==> a.market.exchange == b.market.exchange))
  }

  predicate CleanMarket(m: Market) { Strip(m.symbol) == m.symbol && Strip(m.settle) == m.settle }

  lemma {:induction false} ParticipantsAre(markets: seq<Market>, enabled: set<string>, funding: bool)
    ensures forall r :: r in Participants(markets, enabled, funding)
                        <==> exists m :: m in markets && TakesPart(m, enabled, funding) && r == Listed(m)
  {
    if markets != [] {
      var before, last := markets[..|markets| - 1], markets[|markets| - 1];
      ParticipantsAre(before, enabled, funding);
      assert markets == before + [last];
      forall r ensures r in Participants(markets, enabled, funding)
                       <==> exists m :: m in markets && TakesPart(m, enabled, funding) && r == Listed(m)
      {
        EntryAdds(before, last, enabled, funding, r);
      }
    }
  }

  lemma EntryAdds(before: seq<Market>, last: Market, enabled: set<string>, funding: bool, r: Listing)
    ensures (exists m :: m in before + [last] && TakesPart(m, enabled, funding) && r == Listed(m))
            <==> r in Entry(last, enabled, funding) || exists m :: m in before && TakesPart(m, enabled, funding) && r == Listed(m)
  {
    if r in Entry(last, enabled, funding) {
      assert last in before + [last] && TakesPart(last, enabled, funding) && r == Listed(last);
    }
    if exists m :: m in before && TakesPart(m, enabled, funding) && r == Listed(m) {
      var m :| m in before && TakesPart(m, enabled, funding) && r == Listed(m);
      assert m in before + [last];
    }
  }

  /** The fixed parts of a row that takes part. */
  predicate Regular(r: Listing, enabled: set<string>) {
    && r.market.exchange in enabled && r.trimmed == r.market.symbol
    && r.group == GroupKey(r.market.normalized, "USDT", true)
    && r.slot == SlotKey(Norm(r.market.exchange), Upper(Strip(r.market.normalized)), "USDT", "swap")
  }

  lemma TakesPartRegularly(m: Market, enabled: set<string>, funding: bool)
    requires TakesPart(m, enabled, funding) && CleanMarket(m)
    ensures Regular(Listed(m), enabled)
  {
  }

  lemma ParticipantsAreWellFormed(markets: seq<Market>, enabled: set<string>, funding: bool)
    requires forall c :: c in enabled ==> CleanCode(c)
    requires forall i :: 0 <= i < |markets| ==> CleanMarket(markets[i])
    ensures WellFormed(Participants(markets, enabled, funding))
  {
    var rows := Participants(markets, enabled, funding);
    ParticipantsAre(markets, enabled, funding);
    forall r | r in rows ensures Regular(r, enabled) {
      var m :| m in markets && TakesPart(m, enabled, funding) && r == Listed(m);
      TakesPartRegularly(m, enabled, funding);
    }
    RegularIsWellFormed(rows, enabled);
  }

  lemma RegularIsWellFormed(rows: seq<Listing>, enabled: set<string>)
    requires forall c :: c in enabled ==> CleanCode(c)
    requires forall r :: r in rows ==> Regular(r, enabled)
    ensures WellFormed(rows)
  {
    forall a, b | a in rows && b in rows && a.group == b.group ensures a.slot == b.slot <==> a.market.exchange == b.market.exchange {
      assert Regular(a, enabled) && Regular(b, enabled);
      assert CleanCode(a.market.exchange) && CleanCode(b.market.exchange);
    }
  }

  lemma {:induction false} GroupAre(rows: seq<Listing>, key: GroupKey)
    ensures forall r :: r in Group(rows, key) <==> r in rows && r.group == key
  {
    if rows != [] {
      GroupAre(rows[..|rows| - 1], key);
      assert rows == rows[..|rows| - 1] + [rows[|rows| - 1]];
    }
  }

  lemma {:induction false} GroupKeysAre(rows: seq<Listing>)
    ensures forall key :: key in GroupKeys(rows) <==> exists r :: r in rows && r.group == key
    ensures forall i, j :: 0 <= i < j < |GroupKeys(rows)| ==> GroupKeys(rows)[i] != GroupKeys(rows)[j]
  {
    if rows != [] {
      var before, last := rows[..|rows| - 1], rows[|rows| - 1];
      GroupKeysAre(before);
      assert rows == before + [last];
      forall key ensures key in GroupKeys(rows) <==> exists r :: r in rows && r.group == key {
        if key == last.group { assert last in rows; }
        if exists r :: r in before && r.group == key {
          var r :| r in before && r.group == key;
          assert r in rows;
        }
      }
    }
  }

  lemma GroupsAreOrdered(rows: seq<Listing>, key: GroupKey)
    requires WellFormed(rows)
    ensures Tidy(Group(rows, key)) && Uniform(Group(rows, key)) && Strict(Ordered(Group(rows, key)))
    ensures forall x :: x in Ordered(Group(rows, key)) ==> CleanCode(x.exchange)
  {
    GroupAre(rows, key);
    OrderedAre(Group(rows, key));
    forall x | x in Ordered(Group(rows, key)) ensures CleanCode(x.exchange) {
      assert IsBest(Group(rows, key), x);
      var l :| Best(Group(rows, key), l) && l.market == x;
    }
  }

  // ---------------------------------------------------------------- unique keys

  lemma SamePrefix(prefix: string, x: string, y: string)
    requires prefix + x == prefix + y
    ensures x == y
  {
    assert (prefix + x)[|prefix|..] == x && (prefix + y)[|prefix|..] == y;
  }

  /** A pair key can be read back: it tells the exchanges and the symbol. */
  lemma PairKeyIsInjective(funding: bool, a: string, b: string, x: string, c: string, d: string, y: string)
    requires ':' !in a && ':' !in b && ':' !in c && ':' !in d && PairKey(funding, a, b, x) == PairKey(funding, c, d, y)
    ensures a == c && b == d && x == y
  {
    var prefix := if funding then "funding:" else "spread:swap:";
    assert PairKey(funding, a, b, x) == prefix + (a + ":" + (b + ":" + x));
    assert PairKey(funding, c, d, y) == prefix + (c + ":" + (d + ":" + y));
    SamePrefix(prefix, a + ":" + (b + ":" + x), c + ":" + (d + ":" + y));
    SplitAtColon(a, b + ":" + x, c, d + ":" + y);
    SplitAtColon(b, x, d, y);
  }

  ghost predicate DistinctKeys(pairs: seq<Pair>) {
    forall i, j :: 0 <= i < j < |pairs| ==> pairs[i].pairKey != pairs[j].pairKey
  }

  /** A pair whose key says its exchanges and a symbol. */
  ghost predicate Keyed(p: Pair, funding: bool, symbol: string) {
    CleanCode(p.left.exchange) && CleanCode(p.right.exchange) && p.pairKey == PairKey(funding, p.left.exchange, p.right.exchange, symbol)
  }

  lemma GroupPairsAre(rows: seq<Listing>, key: GroupKey, funding: bool, pairs: seq<Pair>, ordered: seq<Market>)
    requires WellFormed(rows) && pairs == GroupPairs(rows, key, funding) && ordered == Ordered(Group(rows, key))
    ensures 2 * |pairs| == |ordered| * (|ordered| - 1)
    ensures forall p :: p in pairs <==> PairOf(p, ordered, |ordered|, key.symbol, funding)
    ensures forall p :: p in pairs ==> Keyed(p, funding, key.symbol)
    ensures DistinctKeys(pairs)
  {
    GroupsAreOrdered(rows, key);
    TriangleIsKeyed(ordered, key.symbol, funding, pairs);
  }

  lemma TriangleIsKeyed(ordered: seq<Market>, symbol: string, funding: bool, pairs: seq<Pair>)
    requires Strict(ordered) && (forall x :: x in ordered ==> CleanCode(x.exchange))
    requires pairs == Triangle(ordered, |ordered|, symbol, funding)
    ensures 2 * |pairs| == |ordered| * (|ordered| - 1)
    ensures forall p :: p in pairs <==> PairOf(p, ordered, |ordered|, symbol, funding)
    ensures forall p :: p in pairs ==> Keyed(p, funding, symbol)
    ensures DistinctKeys(pairs)
  {
    TriangleIsLong(ordered, |ordered|, symbol, funding);
    TriangleIsComplete(ordered, |ordered|, symbol, funding, pairs);
    forall p | p in pairs ensures Keyed(p, funding, symbol) { PairOfIsKeyed(p, ordered, symbol, funding); }
    KeyedPairsDiffer(pairs, symbol, funding);
  }

  lemma PairOfIsKeyed(p: Pair, ordered: seq<Market>, symbol: string, funding: bool)
    requires PairOf(p, ordered, |ordered|, symbol, funding) && forall x :: x in ordered ==> CleanCode(x.exchange)
    ensures Keyed(p, funding, symbol)
  {
    var i, j :| 0 <= i < j < |ordered| && p == MakePair(ordered[i], ordered[j], symbol, funding);
    assert ordered[i] in ordered && ordered[j] in ordered;
  }

  lemma KeyedPairsDiffer(pairs: seq<Pair>, symbol: string, funding: bool)
    requires NoRepeats(pairs) && forall p :: p in pairs ==> Keyed(p, funding, symbol)
    ensures DistinctKeys(pairs)
  {
    forall i, j | 0 <= i < j < |pairs| ensures pairs[i].pairKey != pairs[j].pairKey {
      assert pairs[i] in pairs && pairs[j] in pairs && !SameExchanges(pairs[i], pairs[j]);
      KeysTellApart(pairs[i], pairs[j], funding, symbol, symbol);
    }
  }

  lemma KeysTellApart(p: Pair, q: Pair, funding: bool, x: string, y: string)
    requires Keyed(p, funding, x) && Keyed(q, funding, y) && (x != y || !SameExchanges(p, q))
    ensures p.pairKey != q.pairKey
  {
    if p.pairKey == q.pairKey {
      PairKeyIsInjective(funding, p.left.exchange, p.right.exchange, x, q.left.exchange, q.right.exchange, y);
    }
  }

  /** The groups in which a pair is found. */
  ghost function GroupsOf(rows: seq<Listing>, funding: bool, p: Pair): iset<GroupKey> {
    iset key: GroupKey | p in GroupPairs(rows, key, funding)
  }

  ghost predicate InSome(keys: seq<GroupKey>, good: iset<GroupKey>) {
    exists i :: 0 <= i < |keys| && keys[i] in good
  }

  lemma LastKeyAdds(keys: seq<GroupKey>, good: iset<GroupKey>)
    requires keys != []
    ensures InSome(keys, good) <==> keys[|keys| - 1] in good || InSome(keys[..|keys| - 1], good)
  {
    var before := keys[..|keys| - 1];
    if InSome(before, good) {
      var i :| 0 <= i < |before| && before[i] in good;
      assert keys[i] in good;
    }
    if InSome(keys, good) {
      var i :| 0 <= i < |keys| && keys[i] in good;
      if i < |before| { assert before[i] in good; }
    }
  }

  /** The pairs of several groups are those of each. */
  lemma {:induction false} PairsOfKeysAre(rows: seq<Listing>, keys: seq<GroupKey>, funding: bool, p: Pair)
    ensures p in PairsOfKeys(rows, keys, funding) <==> InSome(keys, GroupsOf(rows, funding, p))
  {
    if keys != [] {
      PairsOfKeysAre(rows, keys[..|keys| - 1], funding, p);
      LastKeyAdds(keys, GroupsOf(rows, funding, p));
    }
  }

  lemma {:induction false} KeysOfGroupsDiffer(rows: seq<Listing>, keys: seq<GroupKey>, funding: bool)
    requires WellFormed(rows)
    requires forall i, j :: 0 <= i < j < |keys| ==> keys[i].symbol != keys[j].symbol
    ensures DistinctKeys(PairsOfKeys(rows, keys, funding))
  {
    if keys != [] {
      var before := keys[..|keys| - 1];
      KeysOfGroupsDiffer(rows, before, funding);
      forall p | p in PairsOfKeys(rows, before, funding) ensures InSome(before, GroupsOf(rows, funding, p)) {
        PairsOfKeysAre(rows, before, funding, p);
      }
      GroupsDoNotClash(rows, keys, funding, PairsOfKeys(rows, before, funding), GroupPairs(rows, keys[|keys| - 1], funding));
    }
  }

  lemma {:induction false} CountOfGroups(rows: seq<Listing>, keys: seq<GroupKey>, funding: bool)
    requires WellFormed(rows)
    ensures 2 * |PairsOfKeys(rows, keys, funding)| == TwicePairs(rows, keys)
  {
    if keys != [] {
      CountOfGroups(rows, keys[..|keys| - 1], funding);
      var last := keys[|keys| - 1];
      GroupPairsAre(rows, last, funding, GroupPairs(rows, last, funding), Ordered(Group(rows, last)));
    }
  }

  lemma GroupsDoNotClash(rows: seq<Listing>, keys: seq<GroupKey>, funding: bool, before: seq<Pair>, more: seq<Pair>)
    requires WellFormed(rows) && keys != [] && DistinctKeys(before) && more == GroupPairs(rows, keys[|keys| - 1], funding)
    requires forall i, j :: 0 <= i < j < |keys| ==> keys[i].symbol != keys[j].symbol
    requires forall p :: p in before ==> InSome(keys[..|keys| - 1], GroupsOf(rows, funding, p))
    ensures DistinctKeys(before + more)
  {
    var all, n := before + more, |keys| - 1;
    GroupPairsAre(rows, keys[n], funding, more, Ordered(Group(rows, keys[n])));
    forall i, j | 0 <= i < j < |all| ensures all[i].pairKey != all[j].pairKey {
      if i < |before| <= j {
        assert all[i] in before && all[j] in more;
        var k :| 0 <= k < n && keys[..n][k] in GroupsOf(rows, funding, all[i]);
        GroupPairsAre(rows, keys[k], funding, GroupPairs(rows, keys[k], funding), Ordered(Group(rows, keys[k])));
        KeysTellApart(all[i], all[j], funding, keys[k].symbol, keys[n].symbol);
      }
    }
  }

  /** Twice the sum of n(n - 1)/2 over the groups, n being the number of exchanges in a group. */
  function TwicePairs(rows: seq<Listing>, keys: seq<GroupKey>): int {
    if keys == [] then 0
    else
      var n := |Ordered(Group(rows, keys[|keys| - 1]))|;
      TwicePairs(rows, keys[..|keys| - 1]) + n * (n - 1)
  }

  lemma KeysDifferBySymbol(rows: seq<Listing>)
    requires WellFormed(rows)
    ensures forall i, j :: 0 <= i < j < |GroupKeys(rows)| ==> GroupKeys(rows)[i].symbol != GroupKeys(rows)[j].symbol
  {
    var keys := GroupKeys(rows);
    GroupKeysAre(rows);
    forall i, j | 0 <= i < j < |keys| ensures keys[i].symbol != keys[j].symbol {
      assert keys[i] in keys && keys[j] in keys;
      var a :| a in rows && a.group == keys[i];
      var b :| b in rows && b.group == keys[j];
    }
  }

  // ------------------------------------------------------------- main results

  ghost predicate CleanInput(markets: seq<Market>, enabled: set<string>) {
    (forall c :: c in enabled ==> CleanCode(c)) && (forall i :: 0 <= i < |markets| ==> CleanMarket(markets[i]))
  }

  /** Pair keys are unique over all groups. */
  lemma PairKeysAreUnique(markets: seq<Market>, enabled: set<string>, funding: bool)
    requires CleanInput(markets, enabled)
    ensures DistinctKeys(AllPairs(markets, enabled, funding))
  {
    var rows := Participants(markets, enabled, funding);
    ParticipantsAreWellFormed(markets, enabled, funding);
    KeysDifferBySymbol(rows);
    KeysOfGroupsDiffer(rows, GroupKeys(rows), funding);
  }

  /** The exchanges that have something to offer in a group. */
  ghost function Exchanges(rows: seq<Listing>, key: GroupKey): set<string> {
    set r | r in rows && r.group == key && r.complete :: r.market.exchange
  }

  function Codes(ordered: seq<Market>): set<string> {
    if ordered == [] then {} else Codes(ordered[..|ordered| - 1]) + {ordered[|ordered| - 1].exchange}
  }

  lemma {:induction false} CodesAre(ordered: seq<Market>, code: string)
    ensures code in Codes(ordered) <==> Offers(ordered, code)
  {
    if ordered != [] {
      var before := ordered[..|ordered| - 1];
      CodesAre(before, code);
      if Offers(before, code) {
        var i :| 0 <= i < |before| && before[i].exchange == code;
        assert ordered[i].exchange == code;
      }
      if Offers(ordered, code) {
        var i :| 0 <= i < |ordered| && ordered[i].exchange == code;
        if i < |before| { assert before[i].exchange == code; }
      }
      if ordered[|ordered| - 1].exchange == code { assert Offers(ordered, code); }
    }
  }

  lemma {:induction false} StrictCounts(ordered: seq<Market>)
    requires Strict(ordered)
    ensures |Codes(ordered)| == |ordered|
  {
    if ordered != [] {
      var n := |ordered| - 1;
      StrictCounts(ordered[..n]);
      CodesAre(ordered[..n], ordered[n].exchange);
      if Offers(ordered[..n], ordered[n].exchange) {
        var i :| 0 <= i < n && ordered[..n][i].exchange == ordered[n].exchange;
        DifferentPlaces(ordered, i, n);
      }
    }
  }

  /** The row that stands for its exchange in its group: its symbol comes first. */
  ghost predicate Represents(rows: seq<Listing>, l: Listing) {
    l in rows && l.complete
    && forall r :: r in rows && r.complete && r.group == l.group && r.market.exchange == l.market.exchange ==> !Less(r.trimmed, l.trimmed)
  }

  /** `x` is the market of a representative of the group. */
  ghost predicate Stands(rows: seq<Listing>, key: GroupKey, x: Market) {
    exists l :: Represents(rows, l) && l.group == key && l.market == x
  }

  lemma BestRepresents(rows: seq<Listing>, key: GroupKey, l: Listing)
    requires WellFormed(rows)
    ensures Best(Group(rows, key), l) <==> Represents(rows, l) && l.group == key
  {
    GroupAre(rows, key);
  }

  /** The ordered markets of a group are those of its representatives, one for every exchange. */
  lemma OrderedStand(rows: seq<Listing>, key: GroupKey, ordered: seq<Market>)
    requires WellFormed(rows) && ordered == Ordered(Group(rows, key))
    ensures Strict(ordered)
    ensures forall x :: x in ordered ==> Stands(rows, key, x)
    ensures forall r :: r in rows && r.complete && r.group == key ==> Offers(ordered, r.market.exchange)
  {
    var group := Group(rows, key);
    GroupsAreOrdered(rows, key);
    GroupAre(rows, key);
    OrderedAre(group);
    forall x | x in ordered ensures Stands(rows, key, x) {
      assert IsBest(group, x);
      var l :| Best(group, l) && l.market == x;
      BestRepresents(rows, key, l);
    }
    forall r | r in rows && r.complete && r.group == key ensures Offers(ordered, r.market.exchange) {
      assert r in group;
    }
  }

  /** A group yields n(n - 1)/2 pairs, n being the number of its exchanges. */
  lemma GroupCount(rows: seq<Listing>, key: GroupKey, ordered: seq<Market>)
    requires WellFormed(rows) && ordered == Ordered(Group(rows, key))
    ensures |ordered| == |Exchanges(rows, key)|
  {
    OrderedStand(rows, key, ordered);
    StrictCounts(ordered);
    forall code ensures code in Codes(ordered) <==> code in Exchanges(rows, key) {
      CodesAre(ordered, code);
      if Offers(ordered, code) {
        var i :| 0 <= i < |ordered| && ordered[i].exchange == code;
        assert ordered[i] in ordered && Stands(rows, key, ordered[i]);
      }
      if code in Exchanges(rows, key) {
        var r :| r in rows && r.group == key && r.complete && r.market.exchange == code;
      }
    }
    assert Codes(ordered) == Exchanges(rows, key);
  }

  /** Twice the sum of n(n - 1)/2 over the groups. */
  ghost function TwiceTriangles(rows: seq<Listing>, keys: seq<GroupKey>): int {
    if keys == [] then 0
    else
      var n := |Exchanges(rows, keys[|keys| - 1])|;
      TwiceTriangles(rows, keys[..|keys| - 1]) + n * (n - 1)
  }

  lemma {:induction false} SameTriangles(rows: seq<Listing>, keys: seq<GroupKey>)
    requires WellFormed(rows)
    ensures TwicePairs(rows, keys) == TwiceTriangles(rows, keys)
  {
    if keys != [] {
      SameTriangles(rows, keys[..|keys| - 1]);
      GroupCount(rows, keys[|keys| - 1], Ordered(Group(rows, keys[|keys| - 1])));
    }
  }

  /** There are exactly as many pairs as every two exchanges of every group make. */
  lemma PairsAreCounted(markets: seq<Market>, enabled: set<string>, funding: bool)
    requires CleanInput(markets, enabled)
    ensures var rows := Participants(markets, enabled, funding);
            2 * |AllPairs(markets, enabled, funding)| == TwiceTriangles(rows, GroupKeys(rows))
  {
    var rows := Participants(markets, enabled, funding);
    ParticipantsAreWellFormed(markets, enabled, funding);
    CountOfGroups(rows, GroupKeys(rows), funding);
    SameTriangles(rows, GroupKeys(rows));
  }

  /** An exchange does not list a symbol twice. */
  ghost predicate DistinctSymbols(rows: seq<Listing>) {
    forall a, b :: a in rows && b in rows && a.market.exchange == b.market.exchange && a.trimmed == b.trimmed ==> a == b
  }

  ghost predicate Representatives(rows: seq<Listing>, a: Listing, b: Listing) {
    Represents(rows, a) && Represents(rows, b) && a.group == b.group && Less(a.market.exchange, b.market.exchange)
  }

  lemma RepresentativeIsOrdered(rows: seq<Listing>, l: Listing, ordered: seq<Market>)
    requires WellFormed(rows) && DistinctSymbols(rows) && Represents(rows, l) && ordered == Ordered(Group(rows, l.group))
    ensures l.market in ordered
  {
    OrderedStand(rows, l.group, ordered);
    assert Offers(ordered, l.market.exchange);
    var i :| 0 <= i < |ordered| && ordered[i].exchange == l.market.exchange;
    var x := ordered[i];
    assert Stands(rows, l.group, x);
    var k :| Represents(rows, k) && k.group == l.group && k.market == x;
    LessIsTotal(k.trimmed, l.trimmed);
  }

  /** `p` joins two representatives of the group. */
  ghost predicate Joins(rows: seq<Listing>, key: GroupKey, funding: bool, p: Pair) {
    exists a, b :: Representatives(rows, a, b) && a.group == key && p == MakePair(a.market, b.market, key.symbol, funding)
  }

  /** The pairs of a group are those of its representatives. */
  lemma GroupPairsJoin(rows: seq<Listing>, key: GroupKey, funding: bool, p: Pair)
    requires WellFormed(rows) && DistinctSymbols(rows)
    ensures p in GroupPairs(rows, key, funding) <==> Joins(rows, key, funding, p)
  {
    var ordered := Ordered(Group(rows, key));
    GroupPairsAre(rows, key, funding, GroupPairs(rows, key, funding), ordered);
    if p in GroupPairs(rows, key, funding) { OrderedPairJoins(rows, key, funding, p, ordered); }
    if Joins(rows, key, funding, p) { JoinIsOrdered(rows, key, funding, p, ordered); }
  }

  lemma OrderedPairJoins(rows: seq<Listing>, key: GroupKey, funding: bool, p: Pair, ordered: seq<Market>)
    requires WellFormed(rows) && ordered == Ordered(Group(rows, key)) && PairOf(p, ordered, |ordered|, key.symbol, funding)
    ensures Joins(rows, key, funding, p)
  {
    OrderedStand(rows, key, ordered);
    var i, j :| 0 <= i < j < |ordered| && p == MakePair(ordered[i], ordered[j], key.symbol, funding);
    assert Stands(rows, key, ordered[i]) && Stands(rows, key, ordered[j]);
    var a :| Represents(rows, a) && a.group == key && a.market == ordered[i];
    var b :| Represents(rows, b) && b.group == key && b.market == ordered[j];
    assert Representatives(rows, a, b);
  }

  lemma JoinIsOrdered(rows: seq<Listing>, key: GroupKey, funding: bool, p: Pair, ordered: seq<Market>)
    requires WellFormed(rows) && DistinctSymbols(rows) && ordered == Ordered(Group(rows, key)) && Joins(rows, key, funding, p)
    ensures PairOf(p, ordered, |ordered|, key.symbol, funding)
  {
    var a, b :| Representatives(rows, a, b) && a.group == key && p == MakePair(a.market, b.market, key.symbol, funding);
    OrderedStand(rows, key, ordered);
    RepresentativeIsOrdered(rows, a, ordered);
    RepresentativeIsOrdered(rows, b, ordered);
    InTheirOrder(ordered, a.market, b.market, key.symbol, funding);
  }

  lemma InTheirOrder(ordered: seq<Market>, x: Market, y: Market, symbol: string, funding: bool)
    requires Strict(ordered) && x in ordered && y in ordered && Less(x.exchange, y.exchange)
    ensures PairOf(MakePair(x, y, symbol, funding), ordered, |ordered|, symbol, funding)
  {
    var i :| 0 <= i < |ordered| && ordered[i] == x;
    var j :| 0 <= j < |ordered| && ordered[j] == y;
    LessIsTotal(x.exchange, y.exchange);
    LessIsTotal(x.exchange, x.exchange);
    assert i < j;
  }

  ghost predicate IsPairOf(rows: seq<Listing>, funding: bool, p: Pair) {
    exists a, b :: Representatives(rows, a, b) && p == MakePair(a.market, b.market, a.group.symbol, funding)
  }

  /** A pair is generated exactly when it joins the representatives of two exchanges in one group, the exchange that comes
      first on the left: so every two exchanges of a group are paired once, whatever the order of the rows. */
  lemma PairsJoinRepresentatives(markets: seq<Market>, enabled: set<string>, funding: bool, p: Pair)
    requires CleanInput(markets, enabled) && DistinctSymbols(Participants(markets, enabled, funding))
    ensures p in AllPairs(markets, enabled, funding) <==> IsPairOf(Participants(markets, enabled, funding), funding, p)
  {
    var rows := Participants(markets, enabled, funding);
    var keys := GroupKeys(rows);
    ParticipantsAreWellFormed(markets, enabled, funding);
    PairsOfKeysAre(rows, keys, funding, p);
    GroupKeysAre(rows);
    if p in AllPairs(markets, enabled, funding) {
      var i :| 0 <= i < |keys| && keys[i] in GroupsOf(rows, funding, p);
      GroupPairsJoin(rows, keys[i], funding, p);
      assert Joins(rows, keys[i], funding, p);
    }
    if IsPairOf(rows, funding, p) {
      var a, b :| Representatives(rows, a, b) && p == MakePair(a.market, b.market, a.group.symbol, funding);
      assert a.group in keys;
      var i :| 0 <= i < |keys| && keys[i] == a.group;
      assert Joins(rows, keys[i], funding, p);
      GroupPairsJoin(rows, keys[i], funding, p);
      assert keys[i] in GroupsOf(rows, funding, p);
    }
  }

  lemma {:induction false} OnceEach(pairs: seq<Pair>, p: Pair)
    requires DistinctKeys(pairs)
    ensures multiset(pairs)[p] == if p in pairs then 1 else 0
  {
    if pairs != [] {
      var n := |pairs| - 1;
      OnceEach(pairs[..n], p);
      assert pairs == pairs[..n] + [pairs[n]];
    }
  }

  lemma SameRowsSameRepresentatives(rows: seq<Listing>, others: seq<Listing>, l: Listing)
    requires forall r :: r in rows <==> r in others
    ensures Represents(rows, l) <==> Represents(others, l)
  {
  }

  /** Permuting the rows permutes the pairs. */
  lemma OrderOfRowsIsIrrelevant(markets: seq<Market>, others: seq<Market>, enabled: set<string>, funding: bool)
    requires multiset(markets) == multiset(others) && CleanInput(markets, enabled)
    requires DistinctSymbols(Participants(markets, enabled, funding))
    ensures multiset(AllPairs(markets, enabled, funding)) == multiset(AllPairs(others, enabled, funding))
  {
    var rows, rows' := Participants(markets, enabled, funding), Participants(others, enabled, funding);
    forall m: Market ensures m in markets <==> m in others {
      assert m in markets <==> m in multiset(markets);
      assert m in others <==> m in multiset(others);
    }
    forall i | 0 <= i < |others| ensures CleanMarket(others[i]) { assert others[i] in others && others[i] in markets; }
    SameParticipants(markets, others, enabled, funding);
    PairKeysAreUnique(markets, enabled, funding);
    PairKeysAreUnique(others, enabled, funding);
    forall p: Pair ensures multiset(AllPairs(markets, enabled, funding))[p] == multiset(AllPairs(others, enabled, funding))[p] {
      PairsJoinRepresentatives(markets, enabled, funding, p);
      PairsJoinRepresentatives(others, enabled, funding, p);
      SamePairs(rows, rows', funding, p);
      OnceEach(AllPairs(markets, enabled, funding), p);
      OnceEach(AllPairs(others, enabled, funding), p);
    }
  }

  lemma SameParticipants(markets: seq<Market>, others: seq<Market>, enabled: set<string>, funding: bool)
    requires forall m :: m in markets <==> m in others
    ensures forall r :: r in Participants(markets, enabled, funding) <==> r in Participants(others, enabled, funding)
  {
    ParticipantsAre(markets, enabled, funding);
    ParticipantsAre(others, enabled, funding);
    forall r ensures r in Participants(markets, enabled, funding) <==> r in Participants(others, enabled, funding) {
      if r in Participants(markets, enabled, funding) {
        var m :| m in markets && TakesPart(m, enabled, funding) && r == Listed(m);
        assert m in others;
      }
      if r in Participants(others, enabled, funding) {
        var m :| m in others && TakesPart(m, enabled, funding) && r == Listed(m);
        assert m in markets;
      }
    }
  }

  lemma SamePairs(rows: seq<Listing>, others: seq<Listing>, funding: bool, p: Pair)
    requires forall r :: r in rows <==> r in others
    ensures IsPairOf(rows, funding, p) <==> IsPairOf(others, funding, p)
  {
    forall l ensures Represents(rows, l) <==> Represents(others, l) { SameRowsSameRepresentatives(rows, others, l); }
    if IsPairOf(rows, funding, p) {
      var a, b :| Representatives(rows, a, b) && p == MakePair(a.market, b.market, a.group.symbol, funding);
      assert Representatives(others, a, b);
    }
    if IsPairOf(others, funding, p) {
      var a, b :| Representatives(others, a, b) && p == MakePair(a.market, b.market, a.group.symbol, funding);
      assert Representatives(rows, a, b);
    }
  }
}

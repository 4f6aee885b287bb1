/** Generating arbitrage pairs from the active markets (`market_sync_service`): grouping, one market per exchange and
    group, and every two exchanges of a group once. */
module MarketPairs {
  import opened Prelude
  import opened Text
  import opened Sorting

  /** A row of `exchange_markets`, as far as pairing reads it. */
  datatype Market = Market(
    exchange: string,
    symbol: string,
    normalized: string,
    quote: string,
    settle: string,
    marketType: string,
    linear: bool,
    supportsFunding: bool)

  datatype GroupKey = GroupKey(symbol: string, settle: string, linear: bool)

  datatype SlotKey = SlotKey(exchange: string, symbol: string, settle: string, marketType: string)

  /** A row with what pairing works out about it: its group, its slot there, whether it has all it needs, and its symbol
      without blanks. */
  datatype Listing = Listing(market: Market, group: GroupKey, slot: SlotKey, complete: bool, trimmed: string)

  datatype Pair = Pair(pairKey: string, left: Market, right: Market)

  /** `is_u_margin_linear_swap_market`. */
  predicate IsSupported(m: Market) {
    && Norm(m.marketType) == "swap" && m.linear
    && Upper(Strip(m.quote)) == "USDT"
    && Upper(Strip(if m.settle == "" then m.quote else m.settle)) == "USDT"
  }

  /** Rows that take part: enabled and supported, with a symbol and a settlement asset, and for funding pairs with
      funding. */
  predicate TakesPart(m: Market, enabled: set<string>, funding: bool) {
    m.exchange in enabled && IsSupported(m) && m.normalized != "" && m.settle != "" && (funding ==> m.supportsFunding)
  }

  function Listed(m: Market): Listing {
    var slot := SlotKey(Norm(m.exchange), Upper(Strip(m.normalized)), Upper(Strip(m.settle)), Norm(m.marketType));
    var trimmed := Strip(m.symbol);
    Listing(m, GroupKey(m.normalized, Upper(m.settle), m.linear), slot,
            slot.exchange != "" && slot.symbol != "" && slot.settle != "" && slot.marketType != "" && trimmed != "", trimmed)
  }

  // ------------------------------------------------------------- what is built

  function Group(rows: seq<Listing>, key: GroupKey): seq<Listing> {
    if rows == [] then []
    else Group(rows[..|rows| - 1], key) + if rows[|rows| - 1].group == key then [rows[|rows| - 1]] else []
  }

  /** The group keys in order of their first row. */
  function GroupKeys(rows: seq<Listing>): seq<GroupKey> {
    if rows == [] then []
    else
      var before, key := GroupKeys(rows[..|rows| - 1]), rows[|rows| - 1].group;
      if key in before then before else before + [key]
  }

  /** One row per slot, in order of first appearance. */
  function Deduped(rows: seq<Listing>): seq<Listing> {
    if rows == [] then []
    else
      var before, last := Deduped(rows[..|rows| - 1]), rows[|rows| - 1];
      if last.complete then Replace(before, last) else before
  }

  /** Adds a row, or puts it in the place of the one in its slot if its symbol comes earlier. */
  function Replace(kept: seq<Listing>, m: Listing): seq<Listing> {
    if kept == [] then [m]
    else if kept[0].slot == m.slot then
      if Less(m.trimmed, kept[0].market.symbol) then [m] + kept[1..] else kept
    else [kept[0]] + Replace(kept[1..], m)
  }

  /** By exchange, then by symbol. */
  const BY_EXCHANGE: (Market, Market) -> bool := (a: Market, b: Market) => Precedes(a, b)

  predicate Precedes(a: Market, b: Market) {
    Less(a.exchange, b.exchange) || (a.exchange == b.exchange && Less(a.symbol, b.symbol))
  }

  function Markets(rows: seq<Listing>): (markets: seq<Market>)
    ensures |markets| == |rows| && forall i :: 0 <= i < |rows| ==> markets[i] == rows[i].market
  {
    seq(|rows|, i requires 0 <= i < |rows| => rows[i].market)
  }

  function Ordered(group: seq<Listing>): seq<Market> { Sort(Markets(Deduped(group)), BY_EXCHANGE) }

  function PairKey(funding: bool, left: string, right: string, symbol: string): string {
    (if funding then "funding:" else "spread:swap:") + left + ":" + right + ":" + symbol
  }

  function MakePair(left: Market, right: Market, symbol: string, funding: bool): Pair {
    Pair(PairKey(funding, left.exchange, right.exchange, symbol), left, right)
  }

  /** The pairs of one left market with those after it. */
  function PairsWith(left: Market, later: seq<Market>, symbol: string, funding: bool): seq<Pair> {
    if later == [] then []
    else
      var right := later[|later| - 1];
      PairsWith(left, later[..|later| - 1], symbol, funding)
      + if left.exchange == right.exchange then [] else [MakePair(left, right, symbol, funding)]
  }

  /** The triangle: the first `n` markets each with those after them. */
  function Triangle(ordered: seq<Market>, n: nat, symbol: string, funding: bool): seq<Pair>
    requires n <= |ordered|
  {
    if n == 0 then [] else Triangle(ordered, n - 1, symbol, funding) + PairsWith(ordered[n - 1], ordered[n..], symbol, funding)
  }

  function GroupPairs(rows: seq<Listing>, key: GroupKey, funding: bool): seq<Pair> {
    var ordered := Ordered(Group(rows, key));
    Triangle(ordered, |ordered|, key.symbol, funding)
  }

  function PairsOfKeys(rows: seq<Listing>, keys: seq<GroupKey>, funding: bool): seq<Pair> {
    if keys == [] then []
    else PairsOfKeys(rows, keys[..|keys| - 1], funding) + GroupPairs(rows, keys[|keys| - 1], funding)
  }

  function Entry(m: Market, enabled: set<string>, funding: bool): seq<Listing> {
    if TakesPart(m, enabled, funding) then [Listed(m)] else []
  }

  function Participants(markets: seq<Market>, enabled: set<string>, funding: bool): seq<Listing> {
    if markets == [] then []
    else Participants(markets[..|markets| - 1], enabled, funding) + Entry(markets[|markets| - 1], enabled, funding)
  }

  function AllPairs(markets: seq<Market>, enabled: set<string>, funding: bool): seq<Pair> {
    var rows := Participants(markets, enabled, funding);
    PairsOfKeys(rows, GroupKeys(rows), funding)
  }

  // ----------------------------------------------------------- how it is built

  /** `_build_funding_pairs` and `_build_spread_pairs`: a dictionary of groups, filled in one pass and walked in the order
      in which its keys came in. */
  method BuildPairs(markets: seq<Market>, enabled: set<string>, funding: bool) returns (pairs: seq<Pair>)
    ensures pairs == AllPairs(markets, enabled, funding)
  {
    var rows := SelectRows(markets, enabled, funding);
    pairs := PairRows(rows, funding);
  }

  method SelectRows(markets: seq<Market>, enabled: set<string>, funding: bool) returns (rows: seq<Listing>)
    ensures rows == Participants(markets, enabled, funding)
  {
    rows := [];
    for i := 0 to |markets|
      invariant rows == Participants(markets[..i], enabled, funding)
    {
      assert markets[..i + 1][..i] == markets[..i];
      rows := rows + Entry(markets[i], enabled, funding);
    }
    assert markets[..|markets|] == markets;
  }

  method PairRows(rows: seq<Listing>, funding: bool) returns (pairs: seq<Pair>)
    ensures pairs == PairsOfKeys(rows, GroupKeys(rows), funding)
  {
    var keys, grouped := GroupRows(rows);
    pairs := [];
    for i := 0 to |keys|
      invariant pairs == PairsOfKeys(rows, keys[..i], funding)
    {
      assert keys[..i + 1][..i] == keys[..i];
      var ordered := DedupePairMarkets(grouped[keys[i]]);
      var more := PairGroup(ordered, keys[i].symbol, funding);
      pairs := pairs + more;
    }
    assert keys[..|keys|] == keys;
  }

  /** The dictionary holds the group of every key. */
  ghost predicate Grouping(rows: seq<Listing>, keys: seq<GroupKey>, grouped: map<GroupKey, seq<Listing>>) {
    && keys == GroupKeys(rows)
    && (forall key :: key in grouped <==> key in keys)
    && (forall key :: key in grouped ==> grouped[key] == Group(rows, key))
  }

  lemma {:induction false} NoRowsOfKey(rows: seq<Listing>, key: GroupKey)
    requires key !in GroupKeys(rows)
    ensures Group(rows, key) == []
  {
    if rows != [] { NoRowsOfKey(rows[..|rows| - 1], key); }
  }

  lemma GroupingNext(rows: seq<Listing>, keys: seq<GroupKey>, grouped: map<GroupKey, seq<Listing>>, row: Listing)
    requires Grouping(rows, keys, grouped)
    ensures Grouping(rows + [row], if row.group in grouped then keys else keys + [row.group],
                     grouped[row.group := (if row.group in grouped then grouped[row.group] else []) + [row]])
  {
    assert (rows + [row])[..|rows|] == rows;
    if row.group !in grouped { NoRowsOfKey(rows, row.group); }
  }

  method GroupRows(rows: seq<Listing>) returns (keys: seq<GroupKey>, grouped: map<GroupKey, seq<Listing>>)
    ensures Grouping(rows, keys, grouped)
  {
    keys, grouped := [], map[];
    for i := 0 to |rows|
      invariant Grouping(rows[..i], keys, grouped)
    {
      var row := rows[i];
      assert rows[..i + 1] == rows[..i] + [row];
      GroupingNext(rows[..i], keys, grouped, row);
      if row.group in grouped {
        grouped := grouped[row.group := grouped[row.group] + [row]];
      } else {
        keys, grouped := keys + [row.group], grouped[row.group := [] + [row]];
      }
    }
    assert rows[..|rows|] == rows;
  }

  /** The rows in the dictionary, in the order in which their keys came in. */
  ghost predicate Keeping(kept: seq<Listing>, keys: seq<SlotKey>, bySlot: map<SlotKey, Listing>) {
    && |kept| == |keys|
    && (forall i :: 0 <= i < |keys| ==> kept[i].slot == keys[i] && keys[i] in bySlot && bySlot[keys[i]] == kept[i])
    && (forall i, j :: 0 <= i < j < |keys| ==> keys[i] != keys[j])
    && (forall key :: key in bySlot ==> key in keys)
  }

  /** `_dedupe_pair_markets`. */
  method DedupePairMarkets(rows: seq<Listing>) returns (ordered: seq<Market>)
    ensures ordered == Ordered(rows)
  {
    var keys: seq<SlotKey>, bySlot: map<SlotKey, Listing> := [], map[];
    ghost var kept := [];
    for i := 0 to |rows|
      invariant kept == Deduped(rows[..i]) && Keeping(kept, keys, bySlot)
    {
      assert rows[..i + 1][..i] == rows[..i];
      var row := rows[i];
      if !row.complete { continue; }
      KeepingNext(kept, keys, bySlot, row);
      kept := Replace(kept, row);
      if row.slot !in bySlot {
        keys, bySlot := keys + [row.slot], bySlot[row.slot := row];
      } else if Less(row.trimmed, bySlot[row.slot].market.symbol) {
        bySlot := bySlot[row.slot := row];
      }
    }
    assert rows[..|rows|] == rows;
    var values := [];
    for i := 0 to |keys|
      invariant values == kept[..i]
    {
      values := values + [bySlot[keys[i]]];
    }
    assert kept[..|keys|] == kept;
    ordered := Sort(Markets(values), BY_EXCHANGE);
  }

  lemma KeepingNext(kept: seq<Listing>, keys: seq<SlotKey>, bySlot: map<SlotKey, Listing>, row: Listing)
    requires Keeping(kept, keys, bySlot)
    ensures row.slot !in bySlot ==> Keeping(Replace(kept, row), keys + [row.slot], bySlot[row.slot := row])
    ensures row.slot in bySlot && Less(row.trimmed, bySlot[row.slot].market.symbol)
            ==> Keeping(Replace(kept, row), keys, bySlot[row.slot := row])
    ensures row.slot in bySlot && !Less(row.trimmed, bySlot[row.slot].market.symbol) ==> Replace(kept, row) == kept
  {
    if row.slot in bySlot {
      var i :| 0 <= i < |keys| && keys[i] == row.slot;
      ReplaceAt(kept, row, i);
      KeepingReplaced(kept, keys, bySlot, row, i);
    } else {
      ReplaceNew(kept, row);
      KeepingAdded(kept, keys, bySlot, row);
    }
  }

  lemma KeepingReplaced(kept: seq<Listing>, keys: seq<SlotKey>, bySlot: map<SlotKey, Listing>, row: Listing, i: nat)
    requires Keeping(kept, keys, bySlot) && i < |keys| && keys[i] == row.slot
    ensures Keeping(kept[i := row], keys, bySlot[row.slot := row])
  {
  }

  lemma KeepingAdded(kept: seq<Listing>, keys: seq<SlotKey>, bySlot: map<SlotKey, Listing>, row: Listing)
    requires Keeping(kept, keys, bySlot) && row.slot !in bySlot
    ensures Keeping(kept + [row], keys + [row.slot], bySlot[row.slot := row])
  {
  }

  lemma {:induction false} ReplaceNew(kept: seq<Listing>, m: Listing)
    requires forall i :: 0 <= i < |kept| ==> kept[i].slot != m.slot
    ensures Replace(kept, m) == kept + [m]
  {
    if kept != [] {
      ReplaceNew(kept[1..], m);
      assert kept == [kept[0]] + kept[1..];
    }
  }

  lemma {:induction false} ReplaceAt(kept: seq<Listing>, m: Listing, i: nat)
    requires i < |kept| && kept[i].slot == m.slot && forall j :: 0 <= j < |kept| && j != i ==> kept[j].slot != m.slot
    ensures Replace(kept, m) == if Less(m.trimmed, kept[i].market.symbol) then kept[i := m] else kept
  {
    if i > 0 {
      ReplaceAt(kept[1..], m, i - 1);
      assert kept == [kept[0]] + kept[1..];
    }
  }

  /** The nested loops over the ordered markets of one group. */
  method PairGroup(ordered: seq<Market>, symbol: string, funding: bool) returns (pairs: seq<Pair>)
    ensures pairs == Triangle(ordered, |ordered|, symbol, funding)
  {
    pairs := [];
    for i := 0 to |ordered|
      invariant pairs == Triangle(ordered, i, symbol, funding)
    {
      var more := PairLater(ordered[i], ordered[i + 1..], symbol, funding);
      pairs := pairs + more;
    }
  }

  method PairLater(left: Market, later: seq<Market>, symbol: string, funding: bool) returns (pairs: seq<Pair>)
    ensures pairs == PairsWith(left, later, symbol, funding)
  {
    pairs := [];
    for j := 0 to |later|
      invariant pairs == PairsWith(left, later[..j], symbol, funding)
    {
      assert later[..j + 1][..j] == later[..j];
      if left.exchange == later[j].exchange { continue; }
      pairs := pairs + [MakePair(left, later[j], symbol, funding)];
    }
    assert later[..|later|] == later;
  }
}

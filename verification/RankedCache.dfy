/** Ranking opportunity rows and keeping them in a hash (`opportunity_runtime_service`, `market_runtime_cache`,
    `redis_runtime_support`): what is read back is what was ranked, in the same order. */
module RankedCache {
  import opened Prelude
  import opened Text
  import opened Sorting

  /** An opportunity row; `detail` stands for the fields that neither ranking nor caching reads. */
  datatype Row = Row(
    marketPairKey: string,
    symbol: string,
    leftExchange: string,
    rightExchange: string,
    status: int,
    rankSort: Option<real>,
    rank: Option<nat>,
    detail: string)

  // ----------------------------------------------------------------- ranking

  /** `_sort_priority_for_status`: live rows first, then those without usable data, then frozen ones; no status counts as
      normal. */
  function Priority(status: int): nat {
    if status == 5 then 2 else if status == 3 || status == 4 then 1 else 0
  }

  const BY_RANK: (Row, Row) -> bool := (a: Row, b: Row) => RanksBefore(a, b)

  predicate RanksBefore(a: Row, b: Row) {
    Priority(a.status) < Priority(b.status)
    || (Priority(a.status) == Priority(b.status) && a.rankSort.GetOr(0.0) > b.rankSort.GetOr(0.0))
  }

  function Numbered(rows: seq<Row>): (ranked: seq<Row>)
    ensures |ranked| == |rows|
    ensures forall i :: 0 <= i < |rows| ==> ranked[i] == rows[i].(rank := Some(i + 1), rankSort := None)
  {
    seq(|rows|, i requires 0 <= i < |rows| => rows[i].(rank := Some(i + 1), rankSort := None))
  }

  /** `_finalize_rows`. */
  method FinalizeRows(rows: seq<Row>) returns (ranked: seq<Row>)
    ensures ranked == Numbered(Sort(rows, BY_RANK))
  {
    ranked := Sort(rows, BY_RANK);
    ghost var ordered := ranked;
    for i := 0 to |ranked|
      invariant |ranked| == |ordered|
      invariant forall j :: 0 <= j < |ranked| ==> ranked[j] == if j < i then Numbered(ordered)[j] else ordered[j]
    {
      ranked := ranked[i := ranked[i].(rank := Some(i + 1))];
      ranked := ranked[i := ranked[i].(rankSort := None)];
    }
    assert ranked == Numbered(ordered);
  }

  /** Statuses that rank alike: frozen (5), without usable data (3 and 4), and everything else. */
  predicate SameClass(a: int, b: int) {
    a == b || (a in {3, 4} && b in {3, 4}) || (a !in {3, 4, 5} && b !in {3, 4, 5})
  }

  predicate SameRank(a: Row, b: Row) {
    SameClass(a.status, b.status) && a.rankSort.GetOr(0.0) == b.rankSort.GetOr(0.0)
  }

  /** Nothing follows a frozen row but frozen ones, nothing normal follows one without usable data, and among rows alike the
      rank values, 0 where absent, never increase. */
  ghost predicate BestFirst(rows: seq<Row>) {
    forall i, j :: 0 <= i < j < |rows| ==>
                     && (rows[i].status == 5 ==> rows[j].status == 5)
                     && (rows[i].status in {3, 4} ==> rows[j].status in {3, 4, 5})
                     && (SameClass(rows[i].status, rows[j].status) ==> rows[i].rankSort.GetOr(0.0) >= rows[j].rankSort.GetOr(0.0))
  }

  /** The rows that ranking numbers: the same rows, the best first, and rows alike in status and value in the order in which
      they came. */
  lemma RankingIsStable(rows: seq<Row>, like: Row)
    ensures var ordered := Sort(rows, BY_RANK);
            && multiset(ordered) == multiset(rows) && BestFirst(ordered)
            && Filter(ordered, r => SameRank(r, like)) == Filter(rows, r => SameRank(r, like))
  {
    SortKeeps(rows, BY_RANK);
    SortOrders(rows, BY_RANK);
    SortIsStable(rows, BY_RANK, r => SameRank(r, like));
    OrderedAreBestFirst(Sort(rows, BY_RANK));
  }

  lemma OrderedAreBestFirst(ordered: seq<Row>)
    requires InOrder(ordered, BY_RANK)
    ensures BestFirst(ordered)
  {
    forall i, j | 0 <= i < j < |ordered| ensures !RanksBefore(ordered[j], ordered[i]) { assert !BY_RANK(ordered[j], ordered[i]); }
  }

  // ------------------------------------------------------------------- keys

  function JoinNonEmpty(parts: seq<string>): string {
    if parts == [] then ""
    else
      var rest := JoinNonEmpty(parts[1..]);
      if parts[0] == "" then rest else if rest == "" then parts[0] else parts[0] + ":" + rest
  }

  /** `_resolve_row_key`: the stripped pair key, or one made up from channel, symbol, exchanges and place. */
  function RowKey(channel: string, row: Row, index: nat): string {
    var key := Strip(row.marketPairKey);
    if key != "" then key
    else
      var symbol := Strip(row.symbol);
      JoinNonEmpty([channel, if symbol != "" then symbol else "row-" + Decimal(index), Strip(row.leftExchange), Strip(row.rightExchange),
                    Decimal(index)])
  }

  /** What is stored in one field. */
  datatype Item = Item(rowKey: string, row: Row)

  /** The rows with their keys. */
  function Itemized(channel: string, rows: seq<Row>): (items: seq<Item>)
    ensures |items| == |rows|
    ensures forall i :: 0 <= i < |rows| ==> items[i] == Item(RowKey(channel, rows[i], i + 1), rows[i])
  {
    seq(|rows|, i requires 0 <= i < |rows| => Item(RowKey(channel, rows[i], i + 1), rows[i]))
  }

  /** The fields that items make; of two with one key the later one stays. */
  function Fields(items: seq<Item>): map<string, Item> {
    if items == [] then map[]
    else Fields(items[..|items| - 1])[items[|items| - 1].rowKey := items[|items| - 1]]
  }

  // ------------------------------------------------------------------ the store

  /** What a key of the store holds: a hash, or something else that is in the way. */
  datatype Stored = Hash(fields: map<string, Item>) | Other

  /** The fields that `sync_hash_json` writes: a field whose name is blank is dropped. */
  function Named(fields: map<string, Item>): map<string, Item> {
    map f | f in fields && Strip(f) != "" :: fields[f]
  }

  /** What is written are the fields whose names are not blank. */
  lemma NamedAre(fields: map<string, Item>)
    ensures forall f :: f in Named(fields) <==> f in fields && exists k :: 0 <= k < |f| && !IsSpace(f[k])
    ensures forall f :: f in Named(fields) ==> Named(fields)[f] == fields[f]
  {
    forall f ensures f in Named(fields) <==> f in fields && exists k :: 0 <= k < |f| && !IsSpace(f[k]) { BlankIff(f); }
  }

  class Cache {
    var store: map<string, Stored>

    constructor ()
      ensures store == map[]
    {
      store := map[];
    }

    /** `sync_hash_json`: whatever the key held, it then holds exactly these fields, and is gone if there are none. */
    method SyncHash(key: string, fields: map<string, Item>)
      modifies this
      ensures store == if Named(fields) == map[] then old(store) - {key} else old(store)[key := Hash(Named(fields))]
    {
      var encoded := Named(fields);
      if key in store && !store[key].Hash? { store := store - {key}; }
      var existing := if key in store then store[key].fields else map[];
      var stale := existing.Keys - encoded.Keys;
      if key in store && stale != {} { store := store[key := Hash(existing - stale)]; }
      if encoded != map[] {
        var kept := if key in store then store[key].fields else map[];
        assert existing - {} == existing;
        assert kept == existing - stale;
        assert kept + encoded == encoded;
        store := store[key := Hash(kept + encoded)];
      } else {
        store := store - {key};
      }
    }

    /** `set_public_rows` and `_sync_public_rows_hash`. */
    method SetPublicRows(channel: string, key: string, rows: seq<Row>)
      modifies this
      ensures var fields := Named(Fields(Itemized(channel, rows)));
              store == if fields == map[] then old(store) - {key} else old(store)[key := Hash(fields)]
    {
      var fields: map<string, Item> := map[];
      ghost var items := Itemized(channel, rows);
      for index := 0 to |rows|
        invariant fields == Fields(items[..index])
      {
        assert items[..index + 1][..index] == items[..index];
        var rowKey := RowKey(channel, rows[index], index + 1);
        fields := fields[rowKey := Item(rowKey, rows[index])];
      }
      assert items[..|rows|] == items;
      SyncHash(key, fields);
    }

    /** `_read_public_row_items` and `_sort_public_row_items`; `enumeration` is the order in which the hash happens to list
        its fields. */
    method GetPublicRows(key: string, enumeration: seq<string>) returns (rows: seq<Row>)
      requires Enumerates(enumeration, if key in store && store[key].Hash? then store[key].fields else map[])
      ensures rows == ReadRows(if key in store && store[key].Hash? then store[key].fields else map[], enumeration)
    {
      var fields := if key in store && store[key].Hash? then store[key].fields else map[];
      var items := [];
      for i := 0 to |enumeration|
        invariant items == Items(fields, enumeration[..i])
      {
        assert enumeration[..i + 1][..i] == enumeration[..i];
        items := items + [fields[enumeration[i]]];
      }
      assert enumeration[..|enumeration|] == enumeration;
      items := Sort(items, BY_PLACE);
      rows := [];
      for i := 0 to |items|
        invariant rows == RowsOf(items[..i])
      {
        assert items[..i + 1][..i] == items[..i];
        rows := rows + [items[i].row];
      }
      assert items[..|items|] == items;
    }
  }

  /** Every field once, in some order. */
  ghost predicate Enumerates(enumeration: seq<string>, fields: map<string, Item>) {
    && (forall f :: f in enumeration <==> f in fields)
    && Distinct(enumeration)
  }

  function Items(fields: map<string, Item>, enumeration: seq<string>): seq<Item>
    requires forall f :: f in enumeration ==> f in fields
  {
    if enumeration == [] then []
    else Items(fields, enumeration[..|enumeration| - 1]) + [fields[enumeration[|enumeration| - 1]]]
  }

  function RowsOf(items: seq<Item>): seq<Row> {
    if items == [] then [] else RowsOf(items[..|items| - 1]) + [items[|items| - 1].row]
  }

  /** By rank, then by key; a row without a rank goes last. */
  const BY_PLACE: (Item, Item) -> bool := (a: Item, b: Item) => ComesBefore(a, b)

  function SafeRank(row: Row): nat { row.rank.GetOr(1000000000) }

  predicate ComesBefore(a: Item, b: Item) {
    SafeRank(a.row) < SafeRank(b.row) || (SafeRank(a.row) == SafeRank(b.row) && Less(a.rowKey, b.rowKey))
  }

  function ReadRows(fields: map<string, Item>, enumeration: seq<string>): seq<Row>
    requires forall f :: f in enumeration ==> f in fields
  {
    RowsOf(Sort(Items(fields, enumeration), BY_PLACE))
  }

  // --------------------------------------------------------------- reading back

  lemma {:induction false} JoinIsNotBlank(parts: seq<string>)
    requires parts != [] && parts[|parts| - 1] != "" && !IsSpace(parts[|parts| - 1][|parts[|parts| - 1]| - 1])
    ensures JoinNonEmpty(parts) != "" && !IsSpace(JoinNonEmpty(parts)[|JoinNonEmpty(parts)| - 1])
  {
    if |parts| > 1 { JoinIsNotBlank(parts[1..]); }
  }

  lemma {:induction false} NotBlank(s: string)
    requires s != "" && !IsSpace(s[|s| - 1])
    ensures Strip(s) != ""
  {
    LastStays(s);
    TrimRightTrims(TrimLeft(s));
  }

  lemma {:induction false} LastStays(s: string)
    requires s != "" && !IsSpace(s[|s| - 1])
    ensures TrimLeft(s) != "" && !IsSpace(TrimLeft(s)[|TrimLeft(s)| - 1])
  {
    if IsSpace(s[0]) { LastStays(s[1..]); }
  }

  /** No row's key is blank, so no field is dropped. */
  lemma RowKeyIsNotBlank(channel: string, row: Row, index: nat)
    ensures Strip(RowKey(channel, row, index)) != ""
  {
    StripStrips(row.marketPairKey);
    if Strip(row.marketPairKey) != "" {
      StripStrips(Strip(row.marketPairKey));
    } else {
      var symbol := Strip(row.symbol);
      var parts := [channel, if symbol != "" then symbol else "row-" + Decimal(index), Strip(row.leftExchange), Strip(row.rightExchange),
                    Decimal(index)];
      JoinIsNotBlank(parts);
      NotBlank(JoinNonEmpty(parts));
    }
  }

  lemma {:induction false} JoinLast(parts: seq<string>, last: string)
    requires JoinNonEmpty(parts) != "" && last != ""
    ensures JoinNonEmpty(parts + [last]) == JoinNonEmpty(parts) + ":" + last
  {
    assert (parts + [last])[1..] == parts[1..] + [last];
    if JoinNonEmpty(parts[1..]) != "" {
      JoinLast(parts[1..], last);
    } else {
      NothingToJoin(parts[1..], last);
    }
  }

  lemma {:induction false} NothingToJoin(parts: seq<string>, last: string)
    requires JoinNonEmpty(parts) == "" && last != ""
    ensures JoinNonEmpty(parts + [last]) == last
  {
    if parts == [] {
      assert parts + [last] == [last] && [last][1..] == [];
    } else {
      assert (parts + [last])[1..] == parts[1..] + [last];
      NothingToJoin(parts[1..], last);
    }
  }

  /** A key that is made up ends in the row's number. */
  lemma MadeUpKey(channel: string, row: Row, index: nat) returns (head: string)
    requires Strip(row.marketPairKey) == ""
    ensures RowKey(channel, row, index) == head + ":" + Decimal(index)
  {
    var symbol := Strip(row.symbol);
    var parts := [channel, if symbol != "" then symbol else "row-" + Decimal(index), Strip(row.leftExchange), Strip(row.rightExchange)];
    assert parts[1..] == [parts[1], parts[2], parts[3]];
    assert JoinNonEmpty(parts[1..]) != "" && JoinNonEmpty(parts) != "";
    JoinLast(parts, Decimal(index));
    head := JoinNonEmpty(parts);
    assert parts + [Decimal(index)] == [parts[0], parts[1], parts[2], parts[3], Decimal(index)];
  }

  /** So rows without a pair key never get one field, and those with a pair key are filed under it. */
  lemma KeysOfRows(channel: string, a: Row, i: nat, b: Row, j: nat)
    ensures Strip(a.marketPairKey) != "" ==> RowKey(channel, a, i) == Strip(a.marketPairKey)
    ensures Strip(a.marketPairKey) == "" == Strip(b.marketPairKey) && RowKey(channel, a, i) == RowKey(channel, b, j) ==> i == j
  {
    if Strip(a.marketPairKey) == "" == Strip(b.marketPairKey) && RowKey(channel, a, i) == RowKey(channel, b, j) {
      var x := MadeUpKey(channel, a, i);
      var y := MadeUpKey(channel, b, j);
      NumberAtEnd(x, i, y, j);
    }
  }

  lemma {:induction false} FieldsAreNamed(items: seq<Item>)
    requires forall i :: 0 <= i < |items| ==> Strip(items[i].rowKey) != ""
    ensures Named(Fields(items)) == Fields(items)
    ensures forall f :: f in Fields(items) ==> Fields(items)[f].rowKey == f
  {
    if items != [] {
      var before := Fields(items[..|items| - 1]);
      FieldsAreNamed(items[..|items| - 1]);
      forall f | f in Fields(items) ensures f in Named(Fields(items)) {
        if f in before { assert f in Named(before); }
      }
      assert Named(Fields(items)) == Fields(items);
    }
  }

  /** The rows have different keys. */
  ghost predicate KeysDiffer(items: seq<Item>) {
    forall i, j :: 0 <= i < j < |items| ==> items[i].rowKey != items[j].rowKey
  }

  predicate Holds(fields: map<string, Item>, item: Item) { item.rowKey in fields && fields[item.rowKey] == item }

  /** When the keys differ, the fields hold exactly the items. */
  lemma {:induction false} FieldsHoldItems(items: seq<Item>)
    requires KeysDiffer(items)
    ensures forall x :: x in items ==> Holds(Fields(items), x)
    ensures forall f :: f in Fields(items) ==> Fields(items)[f] in items
  {
    if items != [] {
      FieldsHoldItems(items[..|items| - 1]);
      assert items == items[..|items| - 1] + [items[|items| - 1]];
    }
  }

  /** With equal keys among them, there are fewer fields than rows. */
  lemma {:induction false} FewerFields(items: seq<Item>)
    ensures |Fields(items)| <= |items|
    ensures |Fields(items)| == |items| <==> KeysDiffer(items)
  {
    if items != [] {
      var before, last := items[..|items| - 1], items[|items| - 1];
      FewerFields(before);
      OneMoreField(Fields(before), last.rowKey, last);
      KeyIsTaken(before, last.rowKey);
      if KeysDiffer(before) && last.rowKey !in Fields(before) {
        forall i | 0 <= i < |before| ensures items[i].rowKey != last.rowKey { assert before[i] == items[i]; }
        forall i, j | 0 <= i < j < |items| ensures items[i].rowKey != items[j].rowKey {
          if j < |before| { assert before[i] == items[i] && before[j] == items[j]; }
        }
      }
    }
  }

  lemma OneMoreField(fields: map<string, Item>, key: string, item: Item)
    ensures |fields[key := item]| == |fields| + if key in fields then 0 else 1
  {
    if key in fields {
      assert fields[key := item].Keys == fields.Keys;
    } else {
      assert fields[key := item].Keys == fields.Keys + {key};
    }
    assert |fields| == |fields.Keys| && |fields[key := item]| == |fields[key := item].Keys|;
  }

  lemma {:induction false} KeyIsTaken(items: seq<Item>, key: string)
    ensures key in Fields(items) <==> exists i :: 0 <= i < |items| && items[i].rowKey == key
  {
    if items != [] {
      var before := items[..|items| - 1];
      KeyIsTaken(before, key);
      if exists i :: 0 <= i < |before| && before[i].rowKey == key {
        var i :| 0 <= i < |before| && before[i].rowKey == key;
        assert items[i].rowKey == key;
      }
      if exists i :: 0 <= i < |items| && items[i].rowKey == key {
        var i :| 0 <= i < |items| && items[i].rowKey == key;
        if i < |before| { assert before[i].rowKey == key; }
      }
    }
  }

  // --------------------------------------------------------- the same rows again

  lemma {:induction false} ItemsAre(fields: map<string, Item>, enumeration: seq<string>)
    requires forall f :: f in enumeration ==> f in fields
    ensures |Items(fields, enumeration)| == |enumeration|
    ensures forall i :: 0 <= i < |enumeration| ==> Items(fields, enumeration)[i] == fields[enumeration[i]]
  {
    if enumeration != [] { ItemsAre(fields, enumeration[..|enumeration| - 1]); }
  }

  lemma {:induction false} RowsAre(items: seq<Item>)
    ensures |RowsOf(items)| == |items| && forall i :: 0 <= i < |items| ==> RowsOf(items)[i] == items[i].row
  {
    if items != [] { RowsAre(items[..|items| - 1]); }
  }

  lemma EnumerationLength(enumeration: seq<string>, fields: map<string, Item>)
    requires Enumerates(enumeration, fields)
    ensures |enumeration| == |fields|
  {
    DistinctCounts(enumeration);
    assert Elements(enumeration) == fields.Keys;
    assert |fields| == |fields.Keys|;
  }

  lemma PlaceOrderRanks()
    ensures Ranks(BY_PLACE)
  {
    forall a, b | BY_PLACE(a, b) ensures !BY_PLACE(b, a) { LessIsTotal(a.rowKey, b.rowKey); }
    forall a, b, c | !BY_PLACE(b, a) && !BY_PLACE(c, b) ensures !BY_PLACE(c, a) {
      LessIsTotal(a.rowKey, b.rowKey);
      LessIsTotal(b.rowKey, c.rowKey);
      LessIsTotal(a.rowKey, c.rowKey);
      if Less(a.rowKey, b.rowKey) && Less(b.rowKey, c.rowKey) { LessIsTransitive(a.rowKey, b.rowKey, c.rowKey); }
    }
  }

  /** The rows are numbered from one, as ranking leaves them. */
  ghost predicate IsNumbered(items: seq<Item>) {
    forall i :: 0 <= i < |items| ==> items[i].row.rank == Some(i + 1)
  }

  /** Different items of a numbered list, in order of place, stand where the list has them. */
  lemma {:induction false} SortedAsNumbered(items: seq<Item>, sorted: seq<Item>, k: nat)
    requires IsNumbered(items) && InOrder(sorted, BY_PLACE) && Distinct(sorted) && k <= |items|
    requires forall x :: x in sorted <==> x in items
    ensures k <= |sorted| && forall i :: 0 <= i < k ==> sorted[i] == items[i]
  {
    if k > 0 {
      SortedAsNumbered(items, sorted, k - 1);
      var x := items[k - 1];
      assert x in sorted;
      var p :| 0 <= p < |sorted| && sorted[p] == x;
      assert p >= k - 1;
      var y := sorted[k - 1];
      assert y in items;
      var q :| 0 <= q < |items| && items[q] == y;
      assert q >= k - 1;
      assert p == k - 1 || !BY_PLACE(x, y);
    }
  }

  /** Items with different keys come back in their order from any enumeration of their fields. */
  lemma SortedIsTheList(items: seq<Item>, fields: map<string, Item>, enumeration: seq<string>)
    requires IsNumbered(items) && KeysDiffer(items) && fields == Fields(items) && Enumerates(enumeration, fields)
    requires forall f :: f in fields ==> fields[f].rowKey == f
    ensures Sort(Items(fields, enumeration), BY_PLACE) == items
  {
    var listed := Items(fields, enumeration);
    FieldsHoldItems(items);
    ItemsAre(fields, enumeration);
    forall i, j | 0 <= i < j < |listed| ensures listed[i] != listed[j] { assert listed[i].rowKey != listed[j].rowKey; }
    forall x ensures x in listed <==> x in items { ListedItem(items, fields, enumeration, listed, x); }
    EnumerationLength(enumeration, fields);
    FewerFields(items);
    SortedListing(items, listed, Sort(listed, BY_PLACE));
  }

  lemma SortedListing(items: seq<Item>, listed: seq<Item>, sorted: seq<Item>)
    requires IsNumbered(items) && Distinct(listed) && |listed| == |items| && sorted == Sort(listed, BY_PLACE)
    requires forall x :: x in listed <==> x in items
    ensures sorted == items
  {
    PlaceOrderRanks();
    SortKeeps(listed, BY_PLACE);
    SortOrders(listed, BY_PLACE);
    SortKeepsDistinct(listed, BY_PLACE);
    SortedAsNumbered(items, sorted, |items|);
  }

  lemma ListedItem(items: seq<Item>, fields: map<string, Item>, enumeration: seq<string>, listed: seq<Item>, x: Item)
    requires Enumerates(enumeration, fields) && |listed| == |enumeration|
    requires forall i :: 0 <= i < |enumeration| ==> listed[i] == fields[enumeration[i]]
    requires forall y :: y in items ==> Holds(fields, y)
    requires forall f :: f in fields ==> fields[f] in items
    ensures x in listed <==> x in items
  {
    if x in items {
      assert Holds(fields, x) && x.rowKey in enumeration;
      var i :| 0 <= i < |enumeration| && enumeration[i] == x.rowKey;
      assert listed[i] == x;
    }
  }

  /** Reading the hash back gives the ranked rows in their order, in whatever order the hash lists its fields, exactly when
      the rows have different keys. */
  lemma ReadsBackIff(channel: string, rows: seq<Row>, enumeration: seq<string>)
    requires forall i :: 0 <= i < |rows| ==> rows[i].rank == Some(i + 1)
    requires Enumerates(enumeration, Named(Fields(Itemized(channel, rows))))
    ensures ReadRows(Named(Fields(Itemized(channel, rows))), enumeration) == rows <==> KeysDiffer(Itemized(channel, rows))
  {
    var items := Itemized(channel, rows);
    forall i | 0 <= i < |items| ensures Strip(items[i].rowKey) != "" { RowKeyIsNotBlank(channel, rows[i], i + 1); }
    FieldsAreNamed(items);
    ItemsReadBackIff(items, rows, Fields(items), enumeration);
  }

  lemma ItemsReadBackIff(items: seq<Item>, rows: seq<Row>, fields: map<string, Item>, enumeration: seq<string>)
    requires IsNumbered(items) && fields == Fields(items) && Enumerates(enumeration, fields)
    requires forall f :: f in fields ==> fields[f].rowKey == f
    requires |items| == |rows| && forall i :: 0 <= i < |rows| ==> items[i].row == rows[i]
    ensures ReadRows(fields, enumeration) == rows <==> KeysDiffer(items)
  {
    var listed := Items(fields, enumeration);
    var sorted := Sort(listed, BY_PLACE);
    ItemsAre(fields, enumeration);
    EnumerationLength(enumeration, fields);
    FewerFields(items);
    SortKeeps(listed, BY_PLACE);
    RowsAre(sorted);
    if KeysDiffer(items) { SortedIsTheList(items, fields, enumeration); }
  }

  /** What is read does not depend on the order in which the hash lists its fields: rows come by rank, those without one last,
      and by field name where ranks are equal. */
  lemma ReadIgnoresEnumeration(fields: map<string, Item>, enumeration: seq<string>, other: seq<string>)
    requires Enumerates(enumeration, fields) && Enumerates(other, fields)
    requires forall f :: f in fields ==> fields[f].rowKey == f
    ensures ReadRows(fields, enumeration) == ReadRows(fields, other)
    ensures ByPlace(ReadRows(fields, enumeration), Sort(Items(fields, enumeration), BY_PLACE))
  {
    var a, b := Sort(Items(fields, enumeration), BY_PLACE), Sort(Items(fields, other), BY_PLACE);
    ListedInPlace(fields, enumeration, Items(fields, enumeration), a);
    ListedInPlace(fields, other, Items(fields, other), b);
    SortedAreInPlace(fields, a, b);
    RowsAre(a);
  }

  /** The items of all fields, in order of place. */
  ghost predicate SortsFields(fields: map<string, Item>, sorted: seq<Item>) {
    Distinct(sorted) && InOrder(sorted, BY_PLACE) && forall x :: x in sorted <==> Holds(fields, x)
  }

  lemma SortedAreInPlace(fields: map<string, Item>, a: seq<Item>, b: seq<Item>)
    requires SortsFields(fields, a) && SortsFields(fields, b)
    ensures a == b && forall i, j :: 0 <= i < j < |a| ==> InPlace(a[i], a[j])
  {
    forall x, y | x in a && y in a ensures x == y || BY_PLACE(x, y) || BY_PLACE(y, x) {
      assert Holds(fields, x) && Holds(fields, y);
      LessIsTotal(x.rowKey, y.rowKey);
    }
    OrderIsUnique(a, b, BY_PLACE);
    forall i, j | 0 <= i < j < |a| ensures InPlace(a[i], a[j]) {
      assert !BY_PLACE(a[j], a[i]);
      LessIsTotal(a[i].rowKey, a[j].rowKey);
    }
  }

  predicate InPlace(a: Item, b: Item) {
    && (a.row.rank.Some? && b.row.rank.Some? ==> a.row.rank.value <= b.row.rank.value)
    && (a.row.rank.None? && b.row.rank.Some? ==> b.row.rank.value >= 1000000000)
    && (a.row.rank == b.row.rank ==> Less(a.rowKey, b.rowKey) || a.rowKey == b.rowKey)
  }

  /** The rows are those of the items, which stand in place. */
  ghost predicate ByPlace(rows: seq<Row>, items: seq<Item>) {
    && |rows| == |items| && (forall i :: 0 <= i < |items| ==> rows[i] == items[i].row)
    && forall i, j :: 0 <= i < j < |items| ==> InPlace(items[i], items[j])
  }

  lemma ListedInPlace(fields: map<string, Item>, enumeration: seq<string>, listed: seq<Item>, sorted: seq<Item>)
    requires Enumerates(enumeration, fields) && forall f :: f in fields ==> fields[f].rowKey == f
    requires listed == Items(fields, enumeration) && sorted == Sort(listed, BY_PLACE)
    ensures SortsFields(fields, sorted)
  {
    ItemsAre(fields, enumeration);
    ListedHold(fields, enumeration, listed);
    SortsListed(fields, listed, sorted);
  }

  lemma SortsListed(fields: map<string, Item>, listed: seq<Item>, sorted: seq<Item>)
    requires Distinct(listed) && (forall x :: x in listed <==> Holds(fields, x)) && sorted == Sort(listed, BY_PLACE)
    ensures SortsFields(fields, sorted)
  {
    PlaceOrderRanks();
    SortKeeps(listed, BY_PLACE);
    SortOrders(listed, BY_PLACE);
    SortKeepsDistinct(listed, BY_PLACE);
  }

  lemma ListedHold(fields: map<string, Item>, enumeration: seq<string>, listed: seq<Item>)
    requires Enumerates(enumeration, fields) && forall f :: f in fields ==> fields[f].rowKey == f
    requires |listed| == |enumeration| && forall i :: 0 <= i < |listed| ==> listed[i] == fields[enumeration[i]]
    ensures Distinct(listed) && forall x :: x in listed <==> Holds(fields, x)
  {
    forall i, j | 0 <= i < j < |listed| ensures listed[i] != listed[j] { assert listed[i].rowKey != listed[j].rowKey; }
    forall x ensures x in listed <==> Holds(fields, x) {
      if Holds(fields, x) {
        var i :| 0 <= i < |enumeration| && enumeration[i] == x.rowKey;
        assert listed[i] == x;
      }
      if x in listed {
        var i :| 0 <= i < |listed| && listed[i] == x;
        assert enumeration[i] in enumeration;
      }
    }
  }

  /** From ranking to reading: the finalised rows survive the cache, whatever it held before, when their pair keys differ. */
  method RankStoreAndRead(cache: Cache, channel: string, key: string, rows: seq<Row>, enumeration: seq<string>)
    returns (ranked: seq<Row>, read: seq<Row>)
    requires Enumerates(enumeration, Named(Fields(Itemized(channel, Numbered(Sort(rows, BY_RANK))))))
    modifies cache
    ensures ranked == Numbered(Sort(rows, BY_RANK))
    ensures read == ranked <==> KeysDiffer(Itemized(channel, ranked))
  {
    ranked := FinalizeRows(rows);
    cache.SetPublicRows(channel, key, ranked);
    read := cache.GetPublicRows(key, enumeration);
    ReadsBackIff(channel, ranked, enumeration);
  }
}

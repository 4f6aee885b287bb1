/** Which pairs are generated, said of the rows of the market table alone. */
module PairTable {
  import opened Prelude
  import opened Text
  import opened MarketPairs
  import opened PairLaws

  /** A market to be paired: on an enabled exchange, a linear perpetual quoted and settled in USDT, with its symbols, and for
      funding pairs one that pays funding. */
  predicate Pairable(m: Market, enabled: set<string>, funding: bool) {
    && m.exchange in enabled && Norm(m.marketType) == "swap" && m.linear
    && Upper(Strip(m.quote)) == "USDT" && Upper(m.settle) == "USDT"
    && m.symbol != "" && Strip(m.normalized) != ""
    && (funding ==> m.supportsFunding)
  }

  predicate SameAsset(a: Market, b: Market) { a.exchange == b.exchange && a.normalized == b.normalized }

  /** No market to be paired of that exchange and asset has an earlier symbol. */
  ghost predicate StandsFor(markets: seq<Market>, enabled: set<string>, funding: bool, m: Market) {
    && m in markets && Pairable(m, enabled, funding)
    && forall other :: other in markets && Pairable(other, enabled, funding) && SameAsset(other, m) ==> !Less(other.symbol, m.symbol)
  }

  /** The table's unique key: an exchange lists a symbol once for each type of market. */
  ghost predicate UniqueRows(markets: seq<Market>) {
    forall a, b :: a in markets && b in markets && SameRowKey(a, b) ==> a == b
  }

  predicate SameRowKey(a: Market, b: Market) {
    a.exchange == b.exchange && a.symbol == b.symbol && Norm(a.marketType) == Norm(b.marketType)
  }

  ghost predicate PairsMarkets(markets: seq<Market>, enabled: set<string>, funding: bool, p: Pair) {
    && StandsFor(markets, enabled, funding, p.left) && StandsFor(markets, enabled, funding, p.right)
    && p.left.normalized == p.right.normalized && Less(p.left.exchange, p.right.exchange)
    && p.pairKey == (if funding then "funding:" else "spread:swap:") + p.left.exchange + ":" + p.right.exchange + ":" + p.left.normalized
  }

  lemma NotBlank(s: string)
    ensures Strip(s) != "" ==> s != ""
    ensures Upper(s) == "" <==> s == ""
  {
  }

  /** A market that takes part has all it needs exactly when it is to be paired. */
  lemma CompleteIff(m: Market, enabled: set<string>, funding: bool)
    requires CleanMarket(m) && forall c :: c in enabled ==> CleanCode(c)
    ensures TakesPart(m, enabled, funding) && Listed(m).complete <==> Pairable(m, enabled, funding)
    ensures Pairable(m, enabled, funding) ==> Listed(m).group == GroupKey(m.normalized, "USDT", true) && Listed(m).trimmed == m.symbol
  {
    NotBlank(m.normalized);
    NotBlank(Strip(m.normalized));
    NotBlank(m.settle);
  }

  lemma ListingIs(markets: seq<Market>, enabled: set<string>, funding: bool, rows: seq<Listing>, l: Listing)
    requires CleanInput(markets, enabled) && rows == Participants(markets, enabled, funding)
    ensures l in rows && l.complete <==> l.market in markets && Pairable(l.market, enabled, funding) && l == Listed(l.market)
  {
    ParticipantsAre(markets, enabled, funding);
    if l.market in markets { CleanIn(markets, enabled, l.market); CompleteIff(l.market, enabled, funding); }
  }

  lemma CleanIn(markets: seq<Market>, enabled: set<string>, m: Market)
    requires CleanInput(markets, enabled) && m in markets
    ensures CleanMarket(m)
  {
  }

  lemma RepresentativeIs(markets: seq<Market>, enabled: set<string>, funding: bool, rows: seq<Listing>, m: Market)
    requires CleanInput(markets, enabled) && rows == Participants(markets, enabled, funding)
    ensures StandsFor(markets, enabled, funding, m) <==> Represents(rows, Listed(m))
  {
    forall l ensures l in rows && l.complete <==> l.market in markets && Pairable(l.market, enabled, funding) && l == Listed(l.market) {
      ListingIs(markets, enabled, funding, rows, l);
    }
    forall x | x in markets && Pairable(x, enabled, funding)
      ensures Listed(x) in rows && Listed(x).complete && Listed(x).group == GroupKey(x.normalized, "USDT", true) && Listed(x).trimmed == x.symbol
    {
      CleanIn(markets, enabled, x);
      CompleteIff(x, enabled, funding);
      assert Listed(x).market == x;
    }
    var l := Listed(m);
    assert l.market == m;
    if Represents(rows, l) { RepresentativeStands(markets, enabled, funding, rows, m); }
  }

  lemma RepresentativeStands(markets: seq<Market>, enabled: set<string>, funding: bool, rows: seq<Listing>, m: Market)
    requires m in markets && Pairable(m, enabled, funding) && Represents(rows, Listed(m))
    requires forall x :: x in markets && Pairable(x, enabled, funding) ==>
                           Listed(x) in rows && Listed(x).complete && Listed(x).group == GroupKey(x.normalized, "USDT", true)
                           && Listed(x).trimmed == x.symbol
    ensures StandsFor(markets, enabled, funding, m)
  {
    forall other | other in markets && Pairable(other, enabled, funding) && SameAsset(other, m)
      ensures !Less(other.symbol, m.symbol)
    {
      assert Listed(other).market == other && Listed(m).market == m;
    }
  }

  lemma ParticipantIs(markets: seq<Market>, enabled: set<string>, funding: bool, rows: seq<Listing>, r: Listing)
    requires rows == Participants(markets, enabled, funding) && r in rows
    ensures r.market in markets && r == Listed(r.market) && Norm(r.market.marketType) == "swap"
  {
    ParticipantsAre(markets, enabled, funding);
  }

  lemma RowsAreDistinct(markets: seq<Market>, enabled: set<string>, funding: bool, rows: seq<Listing>)
    requires CleanInput(markets, enabled) && UniqueRows(markets) && rows == Participants(markets, enabled, funding)
    ensures DistinctSymbols(rows)
  {
    forall r | r in rows ensures r.market in markets && r == Listed(r.market) && Norm(r.market.marketType) == "swap" {
      ParticipantIs(markets, enabled, funding, rows, r);
    }
    forall a, b | a in rows && b in rows && a.market.exchange == b.market.exchange && a.trimmed == b.trimmed ensures a == b {
      CleanIn(markets, enabled, a.market);
      CleanIn(markets, enabled, b.market);
      assert SameRowKey(a.market, b.market) && a == Listed(a.market) && b == Listed(b.market);
    }
  }

  /** The pairs that are generated, in the columns of the market table: every two exchanges' markets for one asset, each the
      first by symbol of its exchange, the exchange that comes first on the left, under the key that names them. */
  lemma PairsAreOfTheTable(markets: seq<Market>, enabled: set<string>, funding: bool, p: Pair)
    requires CleanInput(markets, enabled) && UniqueRows(markets)
    ensures p in AllPairs(markets, enabled, funding) <==> PairsMarkets(markets, enabled, funding, p)
  {
    var rows := Participants(markets, enabled, funding);
    RowsAreDistinct(markets, enabled, funding, rows);
    PairsJoinRepresentatives(markets, enabled, funding, p);
    if IsPairOf(rows, funding, p) {
      var a, b :| Representatives(rows, a, b) && p == MakePair(a.market, b.market, a.group.symbol, funding);
      JoinedMarkets(markets, enabled, funding, rows, a, b, p);
    }
    if PairsMarkets(markets, enabled, funding, p) { MarketsJoin(markets, enabled, funding, rows, p); }
  }

  lemma JoinedMarkets(markets: seq<Market>, enabled: set<string>, funding: bool, rows: seq<Listing>, a: Listing, b: Listing, p: Pair)
    requires CleanInput(markets, enabled) && rows == Participants(markets, enabled, funding)
    requires Representatives(rows, a, b) && p == MakePair(a.market, b.market, a.group.symbol, funding)
    ensures PairsMarkets(markets, enabled, funding, p)
  {
    ListingIs(markets, enabled, funding, rows, a);
    ListingIs(markets, enabled, funding, rows, b);
    RepresentativeIs(markets, enabled, funding, rows, a.market);
    RepresentativeIs(markets, enabled, funding, rows, b.market);
  }

  lemma MarketsJoin(markets: seq<Market>, enabled: set<string>, funding: bool, rows: seq<Listing>, p: Pair)
    requires CleanInput(markets, enabled) && rows == Participants(markets, enabled, funding) && PairsMarkets(markets, enabled, funding, p)
    ensures IsPairOf(rows, funding, p)
  {
    var a, b := Listed(p.left), Listed(p.right);
    RepresentativeIs(markets, enabled, funding, rows, p.left);
    RepresentativeIs(markets, enabled, funding, rows, p.right);
    CleanIn(markets, enabled, p.left);
    CleanIn(markets, enabled, p.right);
    CompleteIff(p.left, enabled, funding);
    CompleteIff(p.right, enabled, funding);
    assert a.market == p.left && b.market == p.right && Representatives(rows, a, b);
  }
}

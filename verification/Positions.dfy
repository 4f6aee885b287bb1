/** Booking fills into position rows (`_upsert_position_from_fill`) and what a row means as a function of its ledger. */
module Positions {
  import opened Prelude

  datatype PositionSide = Long | Short | Net

  datatype Side = Buy | Sell

  /** One booked fill, as far as a position row is concerned. */
  datatype Trade = Trade(side: Side, quantity: real, price: real, executionId: nat, legId: nat, fillId: nat)

  /** A row of `arbitrage_positions`; the key is kept by the table. */
  datatype Position = Position(
    quantity: real,
    avgEntryPrice: real,
    markPrice: real,
    marketValue: real,
    realizedPnl: real,
    unrealizedPnl: real,
    openedBy: nat,
    lastLegId: nat,
    lastFillId: nat,
    isOpen: bool)

  /** Buying opens a long row; on every other row selling opens and buying closes. */
  predicate Opens(ps: PositionSide, side: Side) {
    (ps == Long) == (side == Buy)
  }

  /** `get_open_position` sees a row only while it is open. */
  function OpenRow(row: Option<Position>): Option<Position> {
    if row.Some? && row.value.isOpen then row else None
  }

  function Quantity(row: Option<Position>): real {
    if row.Some? && row.value.isOpen then row.value.quantity else 0.0
  }

  function AvgEntry(row: Option<Position>): real {
    if row.Some? && row.value.isOpen then row.value.avgEntryPrice else 0.0
  }

  function Realized(row: Option<Position>): real {
    if row.Some? && row.value.isOpen then row.value.realizedPnl else 0.0
  }

  /** The part of a fill that moves the row: all of an opening fill, at most the held quantity of a closing one. */
  function Booked(row: Option<Position>, ps: PositionSide, t: Trade): real {
    if Opens(ps, t.side) then t.quantity else MinR(Quantity(row), t.quantity)
  }

  function NewQuantity(row: Option<Position>, ps: PositionSide, t: Trade): real {
    if Opens(ps, t.side) then Quantity(row) + t.quantity else MaxR(0.0, Quantity(row) - t.quantity)
  }

  /** The average of what was held and what was added, each at its own price. */
  function Blend(held: real, average: real, added: real, price: real): real {
    if held + added == 0.0 then 0.0 else (held * average + added * price) / (held + added)
  }

  function NewAverage(row: Option<Position>, ps: PositionSide, t: Trade): real {
    if NewQuantity(row, ps, t) <= 0.0 then 0.0
    else if Opens(ps, t.side) then Blend(Quantity(row), AvgEntry(row), t.quantity, t.price)
    else AvgEntry(row)
  }

  /** What closing `quantity` at `price` earns; a `net` row books nothing. */
  function Gain(ps: PositionSide, average: real, price: real, quantity: real): real {
    match ps
    case Long => (price - average) * quantity
    case Short => (average - price) * quantity
    case Net => 0.0
  }

  function RealizedDelta(row: Option<Position>, ps: PositionSide, t: Trade): real {
    if Opens(ps, t.side) || Quantity(row) <= 0.0 then 0.0 else Gain(ps, AvgEntry(row), t.price, Booked(row, ps, t))
  }

  /** The newest price marks the position; without one its own average does. */
  function Mark(price: real, average: real): real {
    if price > 0.0 then price else average
  }

  function Worth(quantity: real, price: real): real {
    if quantity > 0.0 && price > 0.0 then quantity * price else 0.0
  }

  function OpenProfit(ps: PositionSide, quantity: real, average: real, mark: real): real {
    if quantity <= 0.0 || average <= 0.0 || mark <= 0.0 then 0.0
    else if ps == Long then (mark - average) * quantity else (average - mark) * quantity
  }

  /** The row `_upsert_position_from_fill` writes. */
  function Book(row: Option<Position>, ps: PositionSide, t: Trade): Position {
    var q := NewQuantity(row, ps, t);
    var avg := NewAverage(row, ps, t);
    var mark := Mark(t.price, avg);
    Position(
      q, avg, mark,
      if Worth(q, mark) > 0.0 then Worth(q, mark) else Worth(t.quantity, t.price),
      Realized(row) + RealizedDelta(row, ps, t),
      OpenProfit(ps, q, avg, mark),
      if OpenRow(row).Some? then row.value.openedBy else t.executionId,
      t.legId, t.fillId,
      q > 0.0)
  }

  // ---------------------------------------------------------------- ledgers

  ghost predicate ValidLedger(ledger: seq<Trade>) {
    forall i :: 0 <= i < |ledger| ==> ledger[i].quantity > 0.0
  }

  /** The stored row after booking a whole ledger, oldest fill first. */
  function Row(ps: PositionSide, ledger: seq<Trade>): Option<Position> {
    if ledger == [] then None
    else Some(Book(Row(ps, Before(ledger)), ps, Last(ledger)))
  }

  function Before(ledger: seq<Trade>): seq<Trade>
    requires ledger != []
  {
    ledger[..|ledger| - 1]
  }

  function Last(ledger: seq<Trade>): Trade
    requires ledger != []
  {
    ledger[|ledger| - 1]
  }

  /** The signed sum of the fill records: opening fills up, closing fills down. */
  function Walk(ps: PositionSide, ledger: seq<Trade>): real {
    if ledger == [] then 0.0
    else Walk(ps, Before(ledger)) + if Opens(ps, Last(ledger).side) then Last(ledger).quantity else -Last(ledger).quantity
  }

  /** `low` is the least value the walk ever had, its start 0 included. */
  ghost predicate IsLowest(ps: PositionSide, ledger: seq<Trade>, low: real) {
    && (forall k :: 0 <= k <= |ledger| ==> low <= Walk(ps, ledger[..k]))
    && (exists k :: 0 <= k <= |ledger| && low == Walk(ps, ledger[..k]))
  }

  /** The stored quantity is the walk of the ledger, reflected at zero. */
  lemma {:induction false} ReflectedWalk(ps: PositionSide, ledger: seq<Trade>) returns (low: real)
    requires ValidLedger(ledger)
    ensures IsLowest(ps, ledger, low) && low <= 0.0
    ensures Quantity(Row(ps, ledger)) == Walk(ps, ledger) - low
  {
    assert ledger[..|ledger|] == ledger;
    if ledger == [] {
      low := 0.0;
      assert low == Walk(ps, ledger[..0]);
    } else {
      var before := Before(ledger);
      var low' := ReflectedWalk(ps, before);
      forall k | 0 <= k <= |before| ensures ledger[..k] == before[..k] {}
      low := MinR(low', Walk(ps, ledger));
      var k :| 0 <= k <= |before| && low' == Walk(ps, before[..k]);
      assert low' == Walk(ps, ledger[..k]);
      forall j | 0 <= j <= |ledger| ensures low <= Walk(ps, ledger[..j]) {
        if j <= |before| { assert low' <= Walk(ps, before[..j]); }
      }
      assert low == Walk(ps, ledger[..if low == low' then k else |ledger|]);
    }
  }

  /** The quantity is never negative, and it is the plain signed sum exactly when no prefix of the ledger
      closes more than had been opened. */
  lemma PlainSumIffNoOvershoot(ps: PositionSide, ledger: seq<Trade>)
    requires ValidLedger(ledger)
    ensures Quantity(Row(ps, ledger)) >= 0.0
    ensures Quantity(Row(ps, ledger)) == Walk(ps, ledger)
            <==> forall k :: 0 <= k <= |ledger| ==> Walk(ps, ledger[..k]) >= 0.0
  {
    var low := ReflectedWalk(ps, ledger);
    assert ledger[..|ledger|] == ledger;
    assert low <= Walk(ps, ledger[..|ledger|]);
    var k :| 0 <= k <= |ledger| && low == Walk(ps, ledger[..k]);
    if forall j :: 0 <= j <= |ledger| ==> Walk(ps, ledger[..j]) >= 0.0 {
      assert Walk(ps, ledger[..k]) >= 0.0;
    }
  }

  // ------------------------------------------------------------- accounting

  /** Index of the first fill of the cycle the last fill belongs to: everything before it left the row flat. */
  function CycleStart(ps: PositionSide, ledger: seq<Trade>): (start: nat)
    ensures ledger != [] ==> start < |ledger|
  {
    if ledger == [] then 0
    else if Quantity(Row(ps, Before(ledger))) <= 0.0 then |ledger| - 1
    else CycleStart(ps, Before(ledger))
  }

  /** Money in minus money out over fills `from..`, counting only the quantity that moved the row. */
  function CashFlow(ps: PositionSide, ledger: seq<Trade>, from: nat): real {
    if |ledger| <= from then 0.0
    else
      CashFlow(ps, Before(ledger), from)
      + Flow(Row(ps, Before(ledger)), ps, Last(ledger))
  }

  /** Buying pays, selling receives. */
  function Flow(row: Option<Position>, ps: PositionSide, t: Trade): real {
    if t.side == Buy then -(Booked(row, ps, t) * t.price) else Booked(row, ps, t) * t.price
  }

  lemma Distribute(x: real, y: real, z: real)
    ensures (x + y) * z == x * z + y * z
    ensures (x - y) * z == x * z - y * z
  {
  }

  /** The row after a fill carries inventory at cost: an opening adds its own price, a closing leaves at the average
      entry, and the difference to its price is what it realises. */
  predicate CarriedAtCost(row: Option<Position>, ps: PositionSide, t: Trade, quantity: real, avg: real, realized: real) {
    var cost, paid, released := Quantity(row) * AvgEntry(row), Booked(row, ps, t) * t.price, Booked(row, ps, t) * AvgEntry(row);
    && quantity * avg == cost + (if Opens(ps, t.side) then paid else -released)
    && (ps != Net ==>
          realized == Realized(row)
                      + if Opens(ps, t.side) then 0.0 else if ps == Long then paid - released else released - paid)
  }

  lemma BookCarriesAtCost(row: Option<Position>, ps: PositionSide, t: Trade)
    requires Quantity(row) >= 0.0 && t.quantity > 0.0
    ensures CarriedAtCost(row, ps, t, NewQuantity(row, ps, t), NewAverage(row, ps, t), Realized(row) + RealizedDelta(row, ps, t))
  {
    if Opens(ps, t.side) {
      DivideThenMultiply(Quantity(row) * AvgEntry(row) + t.quantity * t.price, Quantity(row) + t.quantity);
    } else {
      ClosingCarriesAtCost(row, ps, t);
    }
  }

  lemma ClosingCarriesAtCost(row: Option<Position>, ps: PositionSide, t: Trade)
    requires Quantity(row) >= 0.0 && t.quantity > 0.0 && !Opens(ps, t.side)
    ensures CarriedAtCost(row, ps, t, NewQuantity(row, ps, t), NewAverage(row, ps, t), Realized(row) + RealizedDelta(row, ps, t))
  {
    var a, b := AvgEntry(row), Booked(row, ps, t);
    Distribute(Quantity(row), b, a);
    Distribute(t.price, a, b);
    Distribute(a, t.price, b);
    assert NewQuantity(row, ps, t) == Quantity(row) - b;
  }

  lemma DivideThenMultiply(n: real, d: real)
    requires d > 0.0
    ensures d * (n / d) == n
  {
  }

  /** What a row has realised is the cash `cash` plus its inventory at cost; a short row holds negative inventory. */
  predicate Balanced(ps: PositionSide, realized: real, cash: real, quantity: real, avg: real) {
    realized == cash + if ps == Long then quantity * avg else -(quantity * avg)
  }

  lemma BookingKeepsBalance(row: Option<Position>, ps: PositionSide, t: Trade, cash: real, next: Position)
    requires ps != Net && CarriedAtCost(row, ps, t, next.quantity, next.avgEntryPrice, next.realizedPnl)
    requires Balanced(ps, Realized(row), cash, Quantity(row), AvgEntry(row))
    ensures Balanced(ps, next.realizedPnl, cash + Flow(row, ps, t), next.quantity, next.avgEntryPrice)
  {
  }

  /** Profit, cash and inventory of the open cycle balance after every ledger. */
  lemma {:induction false} RealizedIsCashPlusInventory(ps: PositionSide, ledger: seq<Trade>)
    requires ledger != [] && ValidLedger(ledger) && ps != Net
    ensures var row := Row(ps, ledger).value;
            Balanced(ps, row.realizedPnl, CashFlow(ps, ledger, CycleStart(ps, ledger)), row.quantity, row.avgEntryPrice)
  {
    var before, t := Before(ledger), Last(ledger);
    var prior := Row(ps, before);
    PlainSumIffNoOvershoot(ps, before);
    var cash := CashFlow(ps, before, CycleStart(ps, ledger));
    if Quantity(prior) <= 0.0 {
      assert Realized(prior) == 0.0 && cash == 0.0 && Quantity(prior) == 0.0;
    } else {
      RealizedIsCashPlusInventory(ps, before);
    }
    BookCarriesAtCost(prior, ps, t);
    BookingKeepsBalance(prior, ps, t, cash, Book(prior, ps, t));
  }

  /** The row is owned by the execution of the first fill of its cycle, and points at the latest leg and fill. */
  lemma {:induction false} OwnedByFirstFillOfCycle(ps: PositionSide, ledger: seq<Trade>)
    requires ledger != [] && ValidLedger(ledger)
    ensures var row := Row(ps, ledger).value;
            && row.openedBy == ledger[CycleStart(ps, ledger)].executionId
            && row.lastLegId == Last(ledger).legId && row.lastFillId == Last(ledger).fillId
  {
    if Quantity(Row(ps, Before(ledger))) > 0.0 {
      OwnedByFirstFillOfCycle(ps, Before(ledger));
    }
  }

  ghost predicate PositivePrices(ledger: seq<Trade>) {
    forall i :: 0 <= i < |ledger| ==> ledger[i].price > 0.0
  }

  /** While the row is open its average entry lies between any bounds that hold for the opening fills of the cycle. */
  lemma {:induction false} AverageBetweenOpenings(ps: PositionSide, ledger: seq<Trade>, lo: real, hi: real)
    requires ledger != [] && ValidLedger(ledger)
    requires forall i :: CycleStart(ps, ledger) <= i < |ledger| && Opens(ps, ledger[i].side) ==> lo <= ledger[i].price <= hi
    ensures var row := Row(ps, ledger).value; row.isOpen ==> lo <= row.avgEntryPrice <= hi
  {
    var before, t := Before(ledger), Last(ledger);
    var prior := Row(ps, before);
    PlainSumIffNoOvershoot(ps, before);
    if Quantity(prior) > 0.0 {
      forall i | CycleStart(ps, before) <= i < |before| && Opens(ps, before[i].side) ensures lo <= before[i].price <= hi {
        assert before[i] == ledger[i];
      }
      AverageBetweenOpenings(ps, before, lo, hi);
    }
    if Opens(ps, t.side) {
      assert t == ledger[|ledger| - 1];
      BookCarriesAtCost(prior, ps, t);
      OpeningMovesTheMean(prior, ps, t, Book(prior, ps, t), lo, hi);
    }
  }

  lemma OpeningMovesTheMean(row: Option<Position>, ps: PositionSide, t: Trade, next: Position, lo: real, hi: real)
    requires Quantity(row) >= 0.0 && t.quantity > 0.0 && Opens(ps, t.side) && lo <= t.price <= hi
    requires Quantity(row) > 0.0 ==> lo <= AvgEntry(row) <= hi
    requires next.quantity == NewQuantity(row, ps, t)
    requires CarriedAtCost(row, ps, t, next.quantity, next.avgEntryPrice, next.realizedPnl)
    ensures lo <= next.avgEntryPrice <= hi
  {
    Distribute(Quantity(row), t.quantity, next.avgEntryPrice);
    WeightedMean(Quantity(row), AvgEntry(row), t.quantity, t.price, next.avgEntryPrice, lo, hi);
  }

  lemma WeightedMean(q: real, a: real, n: real, p: real, m: real, lo: real, hi: real)
    requires q >= 0.0 && n > 0.0 && (q > 0.0 ==> lo <= a <= hi) && lo <= p <= hi
    requires q * m + n * m == q * a + n * p
    ensures lo <= m <= hi
  {
    if m < lo {
      if q > 0.0 { ScaleBound(q, m, a); }
      ScaleStrict(n, m, p);
    } else if m > hi {
      if q > 0.0 { ScaleBound(q, a, m); }
      ScaleStrict(n, p, m);
    }
  }

  lemma ScaleBound(c: real, x: real, y: real)
    requires c >= 0.0 && x <= y
    ensures c * x <= c * y
  {
  }

  lemma ScaleStrict(c: real, x: real, y: real)
    requires c > 0.0 && x < y
    ensures c * x < c * y
  {
  }

  /** At positive prices, realised plus unrealised profit is the cash of the cycle plus the inventory at the mark. */
  lemma MarkedToMarket(ps: PositionSide, ledger: seq<Trade>)
    requires ledger != [] && ValidLedger(ledger) && PositivePrices(ledger) && ps != Net
    ensures var row := Row(ps, ledger).value;
            && row.markPrice == Last(ledger).price
            && Balanced(ps, row.realizedPnl + row.unrealizedPnl, CashFlow(ps, ledger, CycleStart(ps, ledger)),
                        row.quantity, row.markPrice)
  {
    RealizedIsCashPlusInventory(ps, ledger);
    PlainSumIffNoOvershoot(ps, Before(ledger));
    PositiveAverage(ps, ledger);
    MarkGain(Row(ps, Before(ledger)), ps, Last(ledger));
    Revalue(ps, Row(ps, ledger).value, CashFlow(ps, ledger, CycleStart(ps, ledger)));
  }

  /** What the other columns of a row show, after every ledger: it is open exactly while it holds something, the newest price
      marks it, or its average where there was no price; an open row is worth its quantity at the mark, and a flat one shows the
      value of the fill that closed it, no average and no profit to come. */
  lemma RowShows(ps: PositionSide, ledger: seq<Trade>)
    requires ledger != [] && ValidLedger(ledger)
    ensures Shows(Row(ps, ledger).value, Last(ledger))
  {
    var before, row := Row(ps, Before(ledger)), Row(ps, ledger).value;
    PlainSumIffNoOvershoot(ps, Before(ledger));
    BookShows(before, ps, Last(ledger), row);
  }

  predicate Shows(row: Position, last: Trade) {
    && (row.isOpen <==> row.quantity > 0.0)
    && row.markPrice == (if last.price > 0.0 then last.price else row.avgEntryPrice)
    && (row.isOpen && row.markPrice > 0.0 ==> row.marketValue == row.quantity * row.markPrice)
    && (!row.isOpen ==> row.avgEntryPrice == 0.0 && row.unrealizedPnl == 0.0)
    && (!row.isOpen && last.price > 0.0 ==> row.marketValue == last.quantity * last.price)
  }

  lemma BookShows(row: Option<Position>, ps: PositionSide, t: Trade, next: Position)
    requires Quantity(row) >= 0.0 && t.quantity > 0.0 && next == Book(row, ps, t)
    ensures Shows(next, t)
  {
    WorthIs(next.quantity, next.markPrice);
    WorthIs(t.quantity, t.price);
    BookColumns(row, ps, t, next);
  }

  lemma WorthIs(quantity: real, price: real)
    ensures quantity > 0.0 && price > 0.0 ==> Worth(quantity, price) == quantity * price && Worth(quantity, price) > 0.0
    ensures quantity <= 0.0 || price <= 0.0 ==> Worth(quantity, price) == 0.0
  {
    if quantity > 0.0 && price > 0.0 { ScaleStrict(quantity, 0.0, price); }
  }

  lemma BookColumns(row: Option<Position>, ps: PositionSide, t: Trade, next: Position)
    requires next == Book(row, ps, t)
    ensures next.isOpen <==> next.quantity > 0.0
    ensures next.markPrice == if t.price > 0.0 then t.price else next.avgEntryPrice
    ensures next.marketValue == if Worth(next.quantity, next.markPrice) > 0.0 then Worth(next.quantity, next.markPrice) else Worth(t.quantity, t.price)
    ensures !next.isOpen ==> next.avgEntryPrice == 0.0 && next.unrealizedPnl == 0.0
  {
  }

  predicate MarkedGain(ps: PositionSide, row: Position) {
    row.unrealizedPnl == if ps == Long then row.quantity * row.markPrice - row.quantity * row.avgEntryPrice
                         else row.quantity * row.avgEntryPrice - row.quantity * row.markPrice
  }

  lemma MarkGain(row: Option<Position>, ps: PositionSide, t: Trade)
    requires Quantity(row) >= 0.0 && t.price > 0.0 && t.quantity > 0.0
    requires Book(row, ps, t).isOpen ==> Book(row, ps, t).avgEntryPrice > 0.0
    ensures MarkedGain(ps, Book(row, ps, t))
  {
    OpenProfitRevalues(ps, NewQuantity(row, ps, t), NewAverage(row, ps, t), Mark(t.price, NewAverage(row, ps, t)));
  }

  lemma OpenProfitRevalues(ps: PositionSide, q: real, average: real, mark: real)
    requires q >= 0.0 && mark > 0.0 && (q > 0.0 ==> average > 0.0)
    ensures OpenProfit(ps, q, average, mark) == if ps == Long then q * mark - q * average else q * average - q * mark
  {
    Distribute(mark, average, q);
    Distribute(average, mark, q);
  }

  lemma Revalue(ps: PositionSide, row: Position, cash: real)
    requires MarkedGain(ps, row) && Balanced(ps, row.realizedPnl, cash, row.quantity, row.avgEntryPrice)
    ensures Balanced(ps, row.realizedPnl + row.unrealizedPnl, cash, row.quantity, row.markPrice)
  {
  }

  lemma {:induction false} PositiveAverage(ps: PositionSide, ledger: seq<Trade>)
    requires ledger != [] && ValidLedger(ledger) && PositivePrices(ledger)
    ensures Row(ps, ledger).value.isOpen ==> Row(ps, ledger).value.avgEntryPrice > 0.0
  {
    var before, t := Before(ledger), Last(ledger);
    PlainSumIffNoOvershoot(ps, before);
    var q, a := Quantity(Row(ps, before)), AvgEntry(Row(ps, before));
    if q > 0.0 { PositiveAverage(ps, before); }
    if Opens(ps, t.side) { OpeningAverageIsPositive(Row(ps, before), ps, t); }
  }

  lemma OpeningAverageIsPositive(row: Option<Position>, ps: PositionSide, t: Trade)
    requires Quantity(row) >= 0.0 && (Quantity(row) > 0.0 ==> AvgEntry(row) > 0.0)
    requires t.quantity > 0.0 && t.price > 0.0 && Opens(ps, t.side)
    ensures NewAverage(row, ps, t) > 0.0
  {
    var q, a, avg := Quantity(row), AvgEntry(row), NewAverage(row, ps, t);
    if q > 0.0 { ScaleBound(q, 0.0, a); }
    ScaleStrict(t.quantity, 0.0, t.price);
    DivideThenMultiply(q * a + t.quantity * t.price, q + t.quantity);
    if avg <= 0.0 { ScaleBound(q + t.quantity, avg, 0.0); }
  }

  /** A `net` row realises nothing: booking a close there keeps the balance of a short row exactly when nothing was
      held or the close was at the average entry price. */
  lemma NetRowsRealizeNothing(row: Option<Position>, t: Trade, cash: real)
    requires Quantity(row) >= 0.0 && t.quantity > 0.0 && !Opens(Net, t.side)
    requires Realized(row) == cash - Quantity(row) * AvgEntry(row)
    ensures var next := Book(row, Net, t);
            && next.realizedPnl == Realized(row)
            && (next.realizedPnl == cash - Booked(row, Net, t) * t.price - next.quantity * next.avgEntryPrice
                <==> Quantity(row) == 0.0 || t.price == AvgEntry(row))
  {
    var next, b := Book(row, Net, t), Booked(row, Net, t);
    var q, a, p := Quantity(row), AvgEntry(row), t.price;
    assert next.quantity * next.avgEntryPrice == (q - b) * a;
    assert cash - b * p - (q - b) * a == Realized(row) + b * (a - p);
    if q > 0.0 { assert b > 0.0; assert b * (a - p) == 0.0 <==> a == p; }
  }

  /** Profit does not survive a flat row: a fill carries the realised profit on if and only if the row held something or
      had none; after a flat row it starts from nothing, under a new owner. */
  lemma ProfitIsKeptIff(ps: PositionSide, ledger: seq<Trade>, t: Trade)
    requires ledger != [] && ValidLedger(ledger) && t.quantity > 0.0
    ensures var was, now := Row(ps, ledger).value, Row(ps, ledger + [t]).value;
            && (now.realizedPnl == was.realizedPnl + RealizedDelta(Row(ps, ledger), ps, t)
                <==> Quantity(Row(ps, ledger)) > 0.0 || was.realizedPnl == 0.0)
            && (Quantity(Row(ps, ledger)) == 0.0 ==> now.realizedPnl == 0.0 && now.openedBy == t.executionId)
  {
    assert Before(ledger + [t]) == ledger && Last(ledger + [t]) == t;
    PlainSumIffNoOvershoot(ps, ledger);
    BookedProfit(Row(ps, ledger), ps, t, Row(ps, ledger + [t]).value);
  }

  lemma BookedProfit(row: Option<Position>, ps: PositionSide, t: Trade, next: Position)
    requires row.Some? && (row.value.isOpen <==> row.value.quantity > 0.0) && next == Book(row, ps, t)
    ensures row.value.isOpen ==> next.realizedPnl == row.value.realizedPnl + RealizedDelta(row, ps, t)
    ensures !row.value.isOpen ==> next.realizedPnl == 0.0 == RealizedDelta(row, ps, t) && next.openedBy == t.executionId
  {
  }
}

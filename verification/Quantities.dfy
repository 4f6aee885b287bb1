/** Order sizing: `build_quantity_plan`, `to_base_quantity` and `_round_down`, over exact reals. */
module Quantities {
  import opened Prelude
  import opened Positions

  datatype Instrument = Instrument(exchange: string, marketType: string, symbol: string)

  datatype MarketRow = MarketRow(contractSize: real, amountPrecision: real, minAmount: real)

  datatype Ticker = Ticker(lastPrice: real, bidPrice: real, askPrice: real)

  /** What the market table and the ticker cache answer while one plan is made. */
  datatype Market = Market(rows: map<Instrument, MarketRow>, tickers: map<Instrument, Ticker>)
  {
    function Row(i: Instrument): MarketRow {
      if i in rows then rows[i] else MarketRow(0.0, 0.0, 0.0)
    }

    /** Buyers pay the ask and sellers get the bid; a zero quote falls back to the last price. */
    function LatestPrice(i: Instrument, side: Side): real {
      if i !in tickers then 0.0
      else
        var quote := if side == Buy then tickers[i].askPrice else tickers[i].bidPrice;
        if quote != 0.0 then quote else tickers[i].lastPrice
    }

    /** Base units per order unit. */
    function Unit(i: Instrument): Positive {
      if i.marketType == "swap" && Row(i).contractSize > 0.0 then Row(i).contractSize else 1.0
    }

    /** `to_base_quantity`. */
    function ToBase(i: Instrument, order: real): real {
      order * Unit(i)
    }
  }

  datatype Plan = Plan(baseQuantity: real, orderQuantity: real, orderValue: real, requestedPrice: real)

  function Pow10(n: nat): (r: real)
    ensures r >= 1.0
  {
    if n == 0 then 1.0 else 10.0 * Pow10(n - 1)
  }

  /** A whole precision of at least one counts decimals; any other positive precision is a step. */
  predicate CountsDecimals(precision: real) {
    precision >= 1.0 && precision.Floor as real == precision
  }

  function Factor(precision: real): (factor: real)
    requires CountsDecimals(precision)
    ensures factor >= 1.0
  {
    Pow10(precision.Floor)
  }

  function Inverse(factor: real): (r: real)
    requires factor > 0.0
    ensures r > 0.0
  {
    1.0 / factor
  }

  /** The spacing of the admissible amounts; 0 means every amount is admissible. */
  function Step(precision: real): (step: real)
    ensures step >= 0.0 && (precision > 0.0 ==> step > 0.0)
  {
    if precision <= 0.0 then 0.0
    else if CountsDecimals(precision) then Inverse(Factor(precision))
    else precision
  }

  function RoundDown(value: real, precision: real): real {
    if value <= 0.0 then 0.0
    else if precision <= 0.0 then value
    else if CountsDecimals(precision) then RoundToDecimals(value, Factor(precision))
    else RoundToStep(value, precision)
  }

  function RoundToDecimals(value: real, factor: real): real
    requires factor > 0.0
  {
    (value * factor).Floor as real / factor
  }

  function RoundToStep(value: real, step: real): real
    requires step > 0.0
  {
    (value / step).Floor as real * step
  }

  function Multiple(k: int, step: real): real { k as real * step }

  /** `r` is the greatest whole multiple of `step` not above `value`. */
  ghost predicate GreatestMultiple(r: real, value: real, step: real) {
    && 0.0 <= r <= value < r + step
    && (exists k: nat :: r == Multiple(k, step))
    && (forall k: nat :: Multiple(k, step) <= value ==> Multiple(k, step) <= r)
  }

  /** Rounding down finds the greatest admissible amount not above the value. */
  lemma RoundDownIsGreatest(value: real, precision: real)
    ensures value <= 0.0 ==> RoundDown(value, precision) == 0.0
    ensures value > 0.0 && precision <= 0.0 ==> RoundDown(value, precision) == value
    ensures value > 0.0 && precision > 0.0 ==> GreatestMultiple(RoundDown(value, precision), value, Step(precision))
  {
    if value > 0.0 && precision > 0.0 {
      if CountsDecimals(precision) {
        RoundDownDecimals(value, Factor(precision));
      } else {
        RoundDownStep(value, precision);
      }
    }
  }

  lemma RoundDownDecimals(value: real, factor: real)
    requires value > 0.0 && factor >= 1.0
    ensures GreatestMultiple(RoundToDecimals(value, factor), value, Inverse(factor))
  {
    var step := Inverse(factor);
    DivideThenMultiply(1.0, factor);
    Reassociate(value, factor, step);
    ScaleStrict(factor, 0.0, value);
    FloorIsGreatest(value, step, value * factor);
    Reciprocal((value * factor).Floor as real, factor);
  }

  lemma Reciprocal(x: real, factor: real)
    requires factor > 0.0
    ensures x / factor == x * Inverse(factor)
  {
  }

  lemma Reassociate(x: real, y: real, z: real)
    requires y * z == 1.0
    ensures (x * y) * z == x
  {
    assert (x * y) * z == x * (y * z);
  }

  lemma RoundDownStep(value: real, step: real)
    requires value > 0.0 && step > 0.0
    ensures GreatestMultiple(RoundToStep(value, step), value, step)
  {
    QuotientTimes(value, step);
    FloorIsGreatest(value, step, value / step);
  }

  lemma FloorIsGreatest(value: real, step: real, q: real)
    requires step > 0.0 && q > 0.0 && q * step == value
    ensures GreatestMultiple(Multiple(q.Floor, step), value, step)
  {
    var n := q.Floor;
    MultipleMonotone(0, n, step);
    MultipleMonotone(n, n, step);
    MultipleBounds(q, n, step);
    MultipleBounds(q, n + 1, step);
    forall k: nat | Multiple(k, step) <= value ensures Multiple(k, step) <= Multiple(n, step) {
      if k <= n { MultipleMonotone(k, n, step); } else { MultipleMonotone(n + 1, k, step); }
    }
  }

  lemma MultipleBounds(q: real, k: int, step: real)
    requires step > 0.0
    ensures k as real <= q ==> Multiple(k, step) <= q * step
    ensures q < k as real ==> q * step < Multiple(k, step)
  {
    if k as real <= q { ScaleBound(step, k as real, q); } else { ScaleStrict(step, q, k as real); }
  }

  lemma MultipleMonotone(j: int, k: int, step: real)
    requires j <= k && step > 0.0
    ensures Multiple(j, step) <= Multiple(k, step)
    ensures Multiple(j + 1, step) == Multiple(j, step) + step
    ensures Multiple(0, step) == 0.0
  {
    ScaleBound(step, j as real, k as real);
    Distribute(j as real, 1.0, step);
    assert (j + 1) as real == j as real + 1.0;
  }

  lemma QuotientTimes(x: real, u: real)
    requires x > 0.0 && u > 0.0
    ensures x / u > 0.0 && (x / u) * u == x
  {
    DivideThenMultiply(x, u);
    if x / u <= 0.0 { ScaleBound(u, x / u, 0.0); }
  }

  /** `build_quantity_plan`: a positive `base` is sized as given, otherwise the amount is sized at the latest price. */
  function BuildPlan(m: Market, i: Instrument, side: Side, orderAmount: real, base: Option<real>): Plan {
    var price := m.LatestPrice(i, side);
    if price <= 0.0 then Plan(0.0, 0.0, 0.0, 0.0)
    else
      var order := RoundDown(WantedBase(orderAmount, base, price) / m.Unit(i), m.Row(i).amountPrecision);
      if m.Row(i).minAmount > 0.0 && order < m.Row(i).minAmount then Plan(0.0, 0.0, 0.0, price)
      else Plan(m.ToBase(i, order), order, m.ToBase(i, order) * price, price)
  }

  function WantedBase(orderAmount: real, base: Option<real>, price: real): real
    requires price > 0.0
  {
    if base.Some? && base.value > 0.0 then base.value else orderAmount / price
  }

  /** Amounts the plan may leave over, in base units. */
  function BaseStep(m: Market, i: Instrument): real {
    m.Unit(i) * Step(m.Row(i).amountPrecision)
  }

  /** `order` order units of `unit` base each cover `wanted` from below, to within `slack` (exactly when `slack` is 0). */
  predicate Covers(wanted: real, base: real, slack: real) {
    base <= wanted && if slack > 0.0 then wanted - base < slack else base == wanted
  }

  lemma ScaledRoundDown(wanted: real, unit: real, precision: real)
    requires wanted > 0.0 && unit > 0.0
    ensures RoundDown(wanted / unit, precision) >= 0.0
    ensures Covers(wanted, RoundDown(wanted / unit, precision) * unit, unit * Step(precision))
  {
    var r, q := RoundDown(wanted / unit, precision), wanted / unit;
    QuotientTimes(wanted, unit);
    RoundDownIsGreatest(q, precision);
    ScaleCover(q, r, unit, Step(precision), wanted);
  }

  lemma ScaleCover(q: real, r: real, unit: real, step: real, wanted: real)
    requires unit > 0.0 && step >= 0.0 && Covers(q, r, step) && q * unit == wanted
    ensures Covers(wanted, r * unit, unit * step)
  {
    ScaleBound(unit, r, q);
    Distribute(q, r, unit);
    if step > 0.0 {
      ScaleStrict(unit, 0.0, step);
      ScaleStrict(unit, q - r, step);
    }
  }

  /** Unless the market has no price or the rounded quantity is below its minimum, the plan covers what was wanted to
      within one step of the market; otherwise it orders nothing. */
  lemma PlanCoversWanted(m: Market, i: Instrument, side: Side, orderAmount: real, base: Option<real>)
    requires m.LatestPrice(i, side) > 0.0 && WantedBase(orderAmount, base, m.LatestPrice(i, side)) > 0.0
    ensures var plan, wanted := BuildPlan(m, i, side, orderAmount, base), WantedBase(orderAmount, base, m.LatestPrice(i, side));
            && plan.orderQuantity >= 0.0 && plan.baseQuantity == m.ToBase(i, plan.orderQuantity)
            && 0.0 <= plan.baseQuantity <= wanted
            && (if MeetsMinimum(m, i, wanted) then Covers(wanted, plan.baseQuantity, BaseStep(m, i)) else plan.orderQuantity == 0.0)
  {
    var plan, wanted := BuildPlan(m, i, side, orderAmount, base), WantedBase(orderAmount, base, m.LatestPrice(i, side));
    ScaledRoundDown(wanted, m.Unit(i), m.Row(i).amountPrecision);
    ScaleBound(m.Unit(i), 0.0, plan.orderQuantity);
  }

  predicate MeetsMinimum(m: Market, i: Instrument, wanted: real) {
    m.Row(i).minAmount <= 0.0 || RoundDown(wanted / m.Unit(i), m.Row(i).amountPrecision) >= m.Row(i).minAmount
  }

  /** Sizing of an opened pair: the right leg is sized from what the left leg will really hold. */
  function OpenLeft(m: Market, left: Instrument, orderAmount: real): Plan {
    BuildPlan(m, left, Buy, orderAmount, None)
  }

  function OpenRight(m: Market, left: Instrument, right: Instrument, orderAmount: real): Plan {
    BuildPlan(m, right, Sell, orderAmount, Some(OpenLeft(m, left, orderAmount).baseQuantity))
  }

  /** A pair that is opened is hedged to within one step of the right market and spends no more than the amount. */
  lemma OpenedPairIsHedged(m: Market, left: Instrument, right: Instrument, orderAmount: real)
    requires OpenLeft(m, left, orderAmount).orderQuantity > 0.0 && OpenRight(m, left, right, orderAmount).orderQuantity > 0.0
    ensures var l, r := OpenLeft(m, left, orderAmount), OpenRight(m, left, right, orderAmount);
            && l.baseQuantity == m.ToBase(left, l.orderQuantity) && r.baseQuantity == m.ToBase(right, r.orderQuantity)
            && Covers(l.baseQuantity, r.baseQuantity, BaseStep(m, right))
            && 0.0 < l.orderValue <= orderAmount
  {
    OpenedLeftIsAffordable(m, left, orderAmount);
    PlanCoversWanted(m, right, Sell, orderAmount, Some(OpenLeft(m, left, orderAmount).baseQuantity));
  }

  lemma OpenedLeftIsAffordable(m: Market, left: Instrument, orderAmount: real)
    requires OpenLeft(m, left, orderAmount).orderQuantity > 0.0
    ensures var l := OpenLeft(m, left, orderAmount);
            l.baseQuantity == m.ToBase(left, l.orderQuantity) && l.baseQuantity > 0.0 && 0.0 < l.orderValue <= orderAmount
  {
    var l, price := OpenLeft(m, left, orderAmount), m.LatestPrice(left, Buy);
    PlannedMeansWanted(m, left, Buy, orderAmount, None);
    PlanCoversWanted(m, left, Buy, orderAmount, None);
    ToBaseIsPositive(m, left, l.orderQuantity);
    Spend(l.baseQuantity, WantedBase(orderAmount, None, price), price);
    AmountBuysWanted(orderAmount, price);
  }

  lemma ToBaseIsPositive(m: Market, i: Instrument, order: real)
    requires order > 0.0
    ensures m.ToBase(i, order) > 0.0
  {
    ScaleStrict(m.Unit(i), 0.0, order);
  }

  lemma AmountBuysWanted(amount: real, price: real)
    requires price > 0.0
    ensures price * WantedBase(amount, None, price) == amount
  {
  }

  lemma Spend(base: real, wanted: real, price: real)
    requires price > 0.0 && 0.0 < base <= wanted
    ensures 0.0 < base * price <= price * wanted
  {
    ScaleBound(price, base, wanted);
    ScaleStrict(price, 0.0, base);
  }

  lemma PlannedMeansWanted(m: Market, i: Instrument, side: Side, orderAmount: real, base: Option<real>)
    requires BuildPlan(m, i, side, orderAmount, base).orderQuantity > 0.0
    ensures m.LatestPrice(i, side) > 0.0 && WantedBase(orderAmount, base, m.LatestPrice(i, side)) > 0.0
  {
    OrderedMeansWanted(WantedBase(orderAmount, base, m.LatestPrice(i, side)), m.Unit(i), m.Row(i).amountPrecision);
  }

  lemma OrderedMeansWanted(wanted: real, unit: real, precision: real)
    requires unit > 0.0 && RoundDown(wanted / unit, precision) > 0.0
    ensures wanted > 0.0
  {
    DivideThenMultiply(wanted, unit);
    if wanted / unit > 0.0 { ScaleStrict(unit, 0.0, wanted / unit); }
  }

  /** A close leg is never larger than the position it closes, and what stays behind is less than one step whenever
      the market has a price and the rounded quantity reaches its minimum. */
  lemma CloseLegFitsPosition(m: Market, i: Instrument, side: Side, held: real)
    requires held > 0.0
    ensures var plan := BuildPlan(m, i, side, 0.0, Some(held));
            && plan.orderQuantity >= 0.0 && plan.baseQuantity == m.ToBase(i, plan.orderQuantity)
            && 0.0 <= plan.baseQuantity <= held
            && (if m.LatestPrice(i, side) > 0.0 && MeetsMinimum(m, i, held)
                then Covers(held, plan.baseQuantity, BaseStep(m, i)) else plan.orderQuantity == 0.0)
  {
    if m.LatestPrice(i, side) > 0.0 {
      PlanCoversWanted(m, i, side, 0.0, Some(held));
    }
  }

  // --------------------------------------------------- in the market's own terms

  /** One order unit is `c` base units: a contract of the swap market's row, or the asset itself. */
  predicate TradesIn(m: Market, i: Instrument, c: real) {
    if i.marketType == "swap" && i in m.rows && m.rows[i].contractSize > 0.0 then c == m.rows[i].contractSize else c == 1.0
  }

  /** A trade of that side is priced at `price`: buyers pay the ask and sellers get the bid where these are quoted. */
  predicate PricedAt(m: Market, i: Instrument, side: Side, price: real) {
    && (i !in m.tickers ==> price == 0.0)
    && (i in m.tickers && side == Buy && m.tickers[i].askPrice != 0.0 ==> price == m.tickers[i].askPrice)
    && (i in m.tickers && side == Buy && m.tickers[i].askPrice == 0.0 ==> price == m.tickers[i].lastPrice)
    && (i in m.tickers && side == Sell && m.tickers[i].bidPrice != 0.0 ==> price == m.tickers[i].bidPrice)
    && (i in m.tickers && side == Sell && m.tickers[i].bidPrice == 0.0 ==> price == m.tickers[i].lastPrice)
  }

  function TenthTo(n: nat): real { if n == 0 then 1.0 else TenthTo(n - 1) / 10.0 }

  /** What the row's precision keeps admissible amounts apart by: that power of a tenth where it is a whole number, itself
      where it is not, and nothing without one. */
  predicate SpacedBy(m: Market, i: Instrument, step: real) {
    && (i !in m.rows || m.rows[i].amountPrecision <= 0.0 ==> step == 0.0)
    && (i in m.rows && m.rows[i].amountPrecision > 0.0 ==>
          var p := m.rows[i].amountPrecision;
          step == if p >= 1.0 && p.Floor as real == p then TenthTo(p.Floor) else p)
  }

  lemma {:induction false} TenthIsInverse(n: nat)
    ensures TenthTo(n) == Inverse(Pow10(n))
  {
    if n > 0 {
      TenthIsInverse(n - 1);
      DivideTwice(Pow10(n - 1));
    }
  }

  lemma DivideTwice(x: real)
    requires x > 0.0
    ensures 1.0 / x / 10.0 == 1.0 / (10.0 * x)
  {
    DivideThenMultiply(1.0, x);
    DivideThenMultiply(1.0, 10.0 * x);
    var a, b := 1.0 / x, 1.0 / (10.0 * x);
    assert x * a == 1.0 && x * (10.0 * b) == 1.0;
    if a < 10.0 * b { ScaleStrict(x, a, 10.0 * b); }
    if a > 10.0 * b { ScaleStrict(x, 10.0 * b, a); }
  }

  function InBase(order: real, c: real): real { order * c }

  ghost predicate Admissible(step: real, amount: real) {
    amount >= 0.0 && (step > 0.0 ==> exists k: nat :: amount == Multiple(k, step))
  }

  /** An admissible amount that reaches the minimum and is worth no more than `wanted`. */
  ghost predicate Fits(c: real, step: real, minimum: real, wanted: real, amount: real) {
    Admissible(step, amount) && InBase(amount, c) <= wanted && (minimum > 0.0 ==> amount >= minimum)
  }

  /** `order` is the greatest amount that fits, or nothing where none does. */
  ghost predicate LargestOrder(c: real, step: real, minimum: real, wanted: real, order: real) {
    && (forall amount :: Fits(c, step, minimum, wanted, amount) ==> amount <= order)
    && (Fits(c, step, minimum, wanted, order) || order == 0.0)
  }

  /** What is wanted: the base quantity to be matched, or else what the amount buys. */
  predicate Wants(orderAmount: real, base: Option<real>, price: real, wanted: real) {
    if base.Some? && base.value > 0.0 then wanted == base.value else price * wanted == orderAmount
  }

  /** What every plan is, in the columns of the market table and the ticker: it orders the most the market admits for what is
      wanted, at the price of its side; without a price it is empty. */
  lemma PlanIsLargestOrder(m: Market, i: Instrument, side: Side, orderAmount: real, base: Option<real>)
    returns (c: real, step: real, price: real, wanted: real)
    ensures c > 0.0 && TradesIn(m, i, c) && SpacedBy(m, i, step) && PricedAt(m, i, side, price)
    ensures BaseStep(m, i) == InBase(step, c) && forall order: real :: m.ToBase(i, order) == InBase(order, c)
    ensures var plan := BuildPlan(m, i, side, orderAmount, base);
            if price <= 0.0 then plan == Plan(0.0, 0.0, 0.0, 0.0)
            else
              && Wants(orderAmount, base, price, wanted) && plan.requestedPrice == price
              && plan.baseQuantity == InBase(plan.orderQuantity, c) && plan.orderValue == InBase(plan.baseQuantity, price)
              && plan.orderQuantity >= 0.0
              && (if wanted > 0.0 then LargestOrder(c, step, if i in m.rows then m.rows[i].minAmount else 0.0, wanted, plan.orderQuantity) else plan.orderQuantity == 0.0)
  {
    c, step, price, wanted := m.Unit(i), Step(m.Row(i).amountPrecision), m.LatestPrice(i, side), 0.0;
    StepIsSpacing(m, i);
    ToBaseScales(m, i);
    if price > 0.0 {
      wanted := WantedBase(orderAmount, base, price);
      WantedIs(orderAmount, base, price);
      PlanIsOrdered(m, i, side, orderAmount, base);
      if wanted > 0.0 {
        OrderIsLargest(c, m.Row(i).amountPrecision, m.Row(i).minAmount, wanted);
      } else {
        NothingWanted(wanted, c);
      }
    }
  }

  lemma StepIsSpacing(m: Market, i: Instrument)
    ensures SpacedBy(m, i, Step(m.Row(i).amountPrecision))
  {
    if CountsDecimals(m.Row(i).amountPrecision) { TenthIsInverse(m.Row(i).amountPrecision.Floor); }
  }

  lemma ToBaseScales(m: Market, i: Instrument)
    ensures BaseStep(m, i) == InBase(Step(m.Row(i).amountPrecision), m.Unit(i))
    ensures forall order: real :: m.ToBase(i, order) == InBase(order, m.Unit(i))
  {
  }

  lemma WantedIs(orderAmount: real, base: Option<real>, price: real)
    requires price > 0.0
    ensures Wants(orderAmount, base, price, WantedBase(orderAmount, base, price))
  {
    DivideThenMultiply(orderAmount, price);
  }

  lemma PlanIsOrdered(m: Market, i: Instrument, side: Side, orderAmount: real, base: Option<real>)
    requires m.LatestPrice(i, side) > 0.0
    ensures var plan, price, c := BuildPlan(m, i, side, orderAmount, base), m.LatestPrice(i, side), m.Unit(i);
            && plan.orderQuantity == Ordered(WantedBase(orderAmount, base, price), c, m.Row(i).amountPrecision, m.Row(i).minAmount)
            && plan.requestedPrice == price && plan.baseQuantity == InBase(plan.orderQuantity, c)
            && plan.orderValue == InBase(plan.baseQuantity, price)
  {
    ZeroOrder(m.Unit(i), m.LatestPrice(i, side));
  }

  lemma ZeroOrder(c: real, price: real)
    ensures InBase(0.0, c) == 0.0 && InBase(0.0, price) == 0.0
  {
  }

  lemma NothingWanted(wanted: real, c: real)
    requires wanted <= 0.0 && c > 0.0
    ensures wanted / c <= 0.0
  {
    var q := wanted / c;
    DivideThenMultiply(wanted, c);
    if q > 0.0 { ScaleStrict(c, 0.0, q); }
  }

  function Ordered(wanted: real, c: real, precision: real, minimum: real): real
    requires c > 0.0
  {
    var rounded := RoundDown(wanted / c, precision);
    if minimum > 0.0 && rounded < minimum then 0.0 else rounded
  }

  lemma OrderIsLargest(c: real, precision: real, minimum: real, wanted: real)
    requires c > 0.0 && wanted > 0.0
    ensures Ordered(wanted, c, precision, minimum) >= 0.0
    ensures LargestOrder(c, Step(precision), minimum, wanted, Ordered(wanted, c, precision, minimum))
  {
    var value, step := wanted / c, Step(precision);
    var rounded := RoundDown(value, precision);
    QuotientTimes(wanted, c);
    RoundDownIsGreatest(value, precision);
    ScaleBound(c, rounded, value);
    forall amount | Fits(c, step, minimum, wanted, amount) ensures amount <= rounded {
      if amount > value { ScaleStrict(c, value, amount); }
    }
  }
}

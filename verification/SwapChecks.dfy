// The two price bounds of a swap: computeMinOut of strategy/engine.go sets the least output a
// decision accepts, estimateOutByPrice of execution/v4_executor.go re-estimates the output before
// sending and rejects an order that falls short. Amounts are raw token units, prices exact reals.
module SwapChecks {
  import opened Prelude
  import opened PoolReaders

  datatype Action = Hold | Buy | Sell

  // The output of amount at the pool price, selling base tokens or buying them: b and q are the
  // powers of ten of base and quote.
  function SellOut(amount: real, b: real, poolPrice: real, q: real): real
    requires b != 0.0
  {
    amount / b * poolPrice * q
  }

  function BuyOut(amount: real, q: real, poolPrice: real, b: real): real
    requires q != 0.0 && poolPrice != 0.0
  {
    amount / q / poolPrice * b
  }

  // Before rounding, in the order both Go functions compute it.
  function ExpectedOut(inst: Instrument, action: Action, poolPrice: real, amountIn: int): real
    requires poolPrice > 0.0
  {
    Pow10Positive(inst.base.decimals);
    Pow10Positive(inst.quote.decimals);
    match action
    case Sell => SellOut(amountIn as real, Pow10(inst.base.decimals), poolPrice, Pow10(inst.quote.decimals))
    case Buy => BuyOut(amountIn as real, Pow10(inst.quote.decimals), poolPrice, Pow10(inst.base.decimals))
    case Hold => 0.0
  }

  function ClampSlippage(s: real): (c: real)
    ensures 0.0 <= c <= 0.5
  {
    if s < 0.0 then 0.0 else if s > 0.5 then 0.5 else s
  }

  function LessSlippage(x: real, slippage: real): real {
    x * (1.0 - ClampSlippage(slippage))
  }

  // computeMinOut. evaluate only calls it with a positive pool price and amount.
  function MinOut(inst: Instrument, action: Action, poolPrice: real, amountIn: int, slippage: real): int
    requires poolPrice > 0.0
  {
    LessSlippage(ExpectedOut(inst, action, poolPrice, amountIn), slippage).Floor
  }

  // estimateOutByPrice.
  function EstimateOut(inst: Instrument, action: Action, poolPrice: real, amountIn: int): int {
    if poolPrice <= 0.0 then 0 else ExpectedOut(inst, action, poolPrice, amountIn).Floor
  }

  datatype Precheck = Pass | InvalidAmount | MissingMinOut | QuoteBelowMinOut

  // The checks V4Executor.Execute makes before it touches the chain; None is a decimal string
  // that does not parse.
  function V4Precheck(inst: Instrument, action: Action, poolPrice: real,
                      amountIn: Option<int>, minOut: Option<int>): Precheck
  {
    if amountIn.None? || amountIn.value <= 0 then InvalidAmount
    else if minOut.None? || minOut.value <= 0 then MissingMinOut
    else
      var quoted := EstimateOut(inst, action, poolPrice, amountIn.value);
      if quoted <= 0 || quoted < minOut.value then QuoteBelowMinOut else Pass
  }

  // The price of one raw input unit in raw output units.
  function UnitPrice(inst: Instrument, action: Action, poolPrice: real): real
    requires poolPrice > 0.0
  {
    ExpectedOut(inst, action, poolPrice, 1)
  }

  // The value of a units at unit price u.
  function Worth(a: int, u: real): real {
    a as real * u
  }

  lemma ExpectedIsLinear(inst: Instrument, action: Action, poolPrice: real, a: int)
    requires poolPrice > 0.0
    ensures ExpectedOut(inst, action, poolPrice, a) == Worth(a, UnitPrice(inst, action, poolPrice))
    ensures UnitPrice(inst, action, poolPrice) >= 0.0
    ensures action != Hold ==> UnitPrice(inst, action, poolPrice) > 0.0
  {
    var b, q := Pow10(inst.base.decimals), Pow10(inst.quote.decimals);
    Pow10Positive(inst.base.decimals);
    Pow10Positive(inst.quote.decimals);
    match action
    case Sell => SellsLinearly(a, b, poolPrice, q);
    case Buy => BuysLinearly(a, q, poolPrice, b);
    case Hold =>
  }

  // What the expected output is worth, without dividing. A sale: output in whole quote tokens is
  // input in whole base tokens times the price. A purchase: output in whole base tokens times the
  // price is input in whole quote tokens.
  lemma ExpectedIsWorthInput(inst: Instrument, poolPrice: real, a: int)
    requires poolPrice > 0.0
    ensures var b, q := Pow10(inst.base.decimals), Pow10(inst.quote.decimals);
      && Product(ExpectedOut(inst, Sell, poolPrice, a), b) == Product(Product(a as real, poolPrice), q)
      && Product(Product(ExpectedOut(inst, Buy, poolPrice, a), poolPrice), q) == Product(a as real, b)
      && ExpectedOut(inst, Hold, poolPrice, a) == 0.0
  {
    Pow10Positive(inst.base.decimals);
    Pow10Positive(inst.quote.decimals);
    SaleBalances(a as real, Pow10(inst.base.decimals), poolPrice, Pow10(inst.quote.decimals));
    PurchaseBalances(a as real, Pow10(inst.quote.decimals), poolPrice, Pow10(inst.base.decimals));
  }

  lemma SaleBalances(x: real, b: real, p: real, q: real)
    requires b > 0.0
    ensures Product(SellOut(x, b, p, q), b) == Product(Product(x, p), q)
  {
    var y := x / b;
    assert y * b == x;
    assert (y * p * q) * b == (y * b) * p * q;
  }

  lemma PurchaseBalances(x: real, q: real, p: real, b: real)
    requires q > 0.0 && p > 0.0
    ensures Product(Product(BuyOut(x, q, p, b), p), q) == Product(x, b)
  {
    var y := x / q;
    var z := y / p;
    assert y * q == x && z * p == y;
    assert (z * b) * p == (z * p) * b;
    assert (y * b) * q == (y * q) * b;
  }

  // The minimum is the expected output less the slippage, rounded down; a slippage outside
  // [0, 0.5] counts as the nearer end.
  lemma MinOutIsShare(inst: Instrument, action: Action, poolPrice: real, a: int, s: real)
    requires poolPrice > 0.0
    ensures 0.0 <= s <= 0.5 ==>
      var x := Product(1.0 - s, ExpectedOut(inst, action, poolPrice, a));
      MinOut(inst, action, poolPrice, a, s) as real <= x < MinOut(inst, action, poolPrice, a, s) as real + 1.0
    ensures s < 0.0 ==> MinOut(inst, action, poolPrice, a, s) == MinOut(inst, action, poolPrice, a, 0.0)
    ensures s > 0.5 ==> MinOut(inst, action, poolPrice, a, s) == MinOut(inst, action, poolPrice, a, 0.5)
  {
    var x := ExpectedOut(inst, action, poolPrice, a);
    Commute(1.0 - s, x);
  }

  lemma Commute(x: real, y: real)
    ensures Product(x, y) == Product(y, x)
  {
  }

  // m raw units of output are within what a raw units buy at the price.
  ghost predicate WithinPrice(inst: Instrument, action: Action, poolPrice: real, a: int, m: int) {
    var b, q := Pow10(inst.base.decimals), Pow10(inst.quote.decimals);
    match action
    case Sell => Product(m as real, b) <= Product(Product(a as real, poolPrice), q)
    case Buy => Product(Product(m as real, poolPrice), q) <= Product(a as real, b)
    case Hold => false
  }

  // The precheck passes exactly if amount, minimum and price are positive and the minimum is within
  // what the amount buys at the price; otherwise the first defect names the answer.
  lemma PrecheckPassesExactlyWhen(inst: Instrument, action: Action, poolPrice: real, a: Option<int>, m: Option<int>)
    ensures V4Precheck(inst, action, poolPrice, a, m) ==
      if !(a.Some? && a.value > 0) then InvalidAmount
      else if !(m.Some? && m.value > 0) then MissingMinOut
      else if poolPrice > 0.0 && WithinPrice(inst, action, poolPrice, a.value, m.value) then Pass
      else QuoteBelowMinOut
  {
    if a.Some? && m.Some? && poolPrice > 0.0 && m.value > 0 {
      FloorIsGreatest(ExpectedOut(inst, action, poolPrice, a.value), m.value);
      ExpectedIsWorthInput(inst, poolPrice, a.value);
      WithinExpected(inst, action, poolPrice, a.value, m.value);
    }
  }

  lemma WithinExpected(inst: Instrument, action: Action, poolPrice: real, a: int, m: int)
    requires poolPrice > 0.0 && m > 0
    ensures m as real <= ExpectedOut(inst, action, poolPrice, a) <==> WithinPrice(inst, action, poolPrice, a, m)
  {
    var x, b, q := ExpectedOut(inst, action, poolPrice, a), Pow10(inst.base.decimals), Pow10(inst.quote.decimals);
    ExpectedIsWorthInput(inst, poolPrice, a);
    Pow10Positive(inst.base.decimals);
    Pow10Positive(inst.quote.decimals);
    match action
    case Sell => ProductOrderKept(m as real, x, b);
    case Buy =>
      ProductOrderKept(m as real, x, poolPrice);
      ProductOrderKept(Product(m as real, poolPrice), Product(x, poolPrice), q);
    case Hold =>
  }

  lemma ProductOrderKept(x: real, y: real, k: real)
    requires k > 0.0
    ensures x <= y <==> Product(x, k) <= Product(y, k)
  {
    MulLe(x, y, k);
  }

  // 3000 USDT at a price of 3000 buy one ETH, of which at least 0.99 at a slippage of 1%.
  lemma BuyingOneEther()
    ensures var inst := Instrument(Token("ETH-Beta", 1, 18), Token("USDT-Beta", 2, 6));
      && ExpectedOut(inst, Buy, 3000.0, 3_000_000_000) == 1000000000000000000.0
      && MinOut(inst, Buy, 3000.0, 3_000_000_000, 0.01) == 990_000_000_000_000_000
      && EstimateOut(inst, Buy, 3000.0, 3_000_000_000) == 1_000_000_000_000_000_000
  {
    var inst := Instrument(Token("ETH-Beta", 1, 18), Token("USDT-Beta", 2, 6));
    PowerOfEighteen();
    assert ExpectedOut(inst, Buy, 3000.0, 3_000_000_000) == 3000000000.0 / 1000000.0 / 3000.0 * 1000000000000000000.0;
  }

  lemma SellsLinearly(a: int, b: real, p: real, q: real)
    requires b > 0.0 && p > 0.0 && q > 0.0
    ensures SellOut(1 as real, b, p, q) > 0.0
    ensures SellOut(a as real, b, p, q) == Worth(a, SellOut(1 as real, b, p, q))
  {
    var i, x := 1.0 / b, a as real;
    PositiveQuotient(1.0, b);
    QuotientIsProduct(x, b, i);
    MulLe(i, 0.0, p);
    MulLe(i * p, 0.0, q);
    assert x * i * p * q == x * (i * p * q);
  }

  lemma BuysLinearly(a: int, q: real, p: real, b: real)
    requires q > 0.0 && p > 0.0 && b > 0.0
    ensures BuyOut(1 as real, q, p, b) > 0.0
    ensures BuyOut(a as real, q, p, b) == Worth(a, BuyOut(1 as real, q, p, b))
  {
    var j := 1.0 / p;
    PositiveQuotient(1.0, p);
    QuotientIsProduct(a as real / q, p, j);
    QuotientIsProduct(1.0 / q, p, j);
    SellsLinearly(a, q, j, b);
  }

  lemma QuotientIsProduct(a: real, b: real, i: real)
    requires b > 0.0 && i == 1.0 / b
    ensures a / b == a * i
  {
    var x := a / b;
    assert x * b == a && i * b == 1.0;
    assert (a * i) * b == a * (i * b);
    CancelRight(x, a * i, b);
  }

  lemma WorthMonotone(a: int, b: int, u: real)
    requires a <= b && u >= 0.0
    ensures Worth(a, u) <= Worth(b, u) && Worth(0, u) == 0.0
  {
    MonotoneTimes(a as real, b as real, u);
  }

  // Unsliced, an order whose minimum comes from computeMinOut passes the precheck exactly when
  // that minimum is not rounded down to zero; the quote itself never falls short of it.
  lemma UnslicedOrderPasses(inst: Instrument, action: Action, poolPrice: real, amountIn: int, slippage: real)
    requires poolPrice > 0.0 && amountIn > 0
    ensures var minOut := MinOut(inst, action, poolPrice, amountIn, slippage);
      && minOut <= EstimateOut(inst, action, poolPrice, amountIn)
      && (V4Precheck(inst, action, poolPrice, Some(amountIn), Some(minOut)) == Pass <==> 1 <= minOut)
      && (1 <= minOut <==> 1.0 <= LessSlippage(ExpectedOut(inst, action, poolPrice, amountIn), slippage))
  {
    ExpectedIsNonNegative(inst, action, poolPrice, amountIn);
    var x := ExpectedOut(inst, action, poolPrice, amountIn);
    ShrunkFloor(x, 1.0 - ClampSlippage(slippage), LessSlippage(x, slippage));
  }

  lemma ExpectedIsNonNegative(inst: Instrument, action: Action, poolPrice: real, amountIn: nat)
    requires poolPrice > 0.0
    ensures ExpectedOut(inst, action, poolPrice, amountIn) >= 0.0
  {
    ExpectedIsLinear(inst, action, poolPrice, amountIn);
    WorthMonotone(0, amountIn, UnitPrice(inst, action, poolPrice));
  }

  lemma ShrunkFloor(x: real, c: real, y: real)
    requires x >= 0.0 && 0.0 < c <= 1.0 && y == x * c
    ensures y.Floor <= x.Floor && (1 <= y.Floor <==> 1.0 <= y)
  {
    ShrinkByFactor(x, c);
    FloorIsGreatest(x, y.Floor);
    FloorIsGreatest(y, 1);
  }

  lemma ShrinkByFactor(x: real, c: real)
    requires x >= 0.0 && 0.0 < c <= 1.0
    ensures 0.0 <= x * c <= x
  {
    assert x - x * c == x * (1.0 - c);
    assert x * (1.0 - c) >= 0.0;
  }

  // A zero minimum, which the V4 path rejects: one raw unit of an 18-decimal token sold for a
  // 6-decimal one. Strategy.EmittedOrderCanBeRejected shows that the strategy emits it.
  lemma ZeroMinimumIsRejected()
    ensures var inst := Instrument(Token("ETH-Beta", 1, 18), Token("USDT-Beta", 2, 6));
      MinOut(inst, Sell, 3000.0, 1, 0.01) == 0
      && V4Precheck(inst, Sell, 3000.0, Some(1), Some(0)) == MissingMinOut
  {
    var inst := Instrument(Token("ETH-Beta", 1, 18), Token("USDT-Beta", 2, 6));
    PowerOfEighteen();
    var x := ExpectedOut(inst, Sell, 3000.0, 1);
    assert x == 1.0 / 1000000000000000000.0 * 3000.0 * 1000000.0;
    assert 0.0 <= x * 0.99 < 1.0;
  }

  lemma PowerOfEighteen()
    ensures Pow10(18) == 1000000000000000000.0 && Pow10(6) == 1000000.0
  {
  }
}

/** The advisory quote at a market's spot price: what an input buys, and what an output costs. The two
    rounded maps form an exact adjunction. */
module Quoter {
  import opened Rounding

  const FEE_DENOMINATOR: int := 1_000_000
  const Q192: int := 0x1_0000_0000_0000_0000_0000_0000_0000_0000_0000_0000_0000_0000

  /** sqrtPrice 0 stands for a market that carries no price. */
  datatype Market = Market(sqrtPrice: nat, fee: nat)

  /** Fees are checked against a tenth of the denominator when a market is registered. */
  predicate Registered(m: Market) {
    m.fee < FEE_DENOMINATOR
  }

  function FeeOnInput(amount: int, fee: nat): int {
    amount * fee / FEE_DENOMINATOR
  }

  function Square(m: Market): nat {
    m.sqrtPrice * m.sqrtPrice
  }

  function SpotOutput(m: Market, amount: int, zeroForOne: bool): int {
    if m.sqrtPrice == 0 then 0
    else
      Positive(m);
      if zeroForOne then amount * Square(m) / Q192 else amount * Q192 / Square(m)
  }

  function NetOfFee(amount: int, fee: nat): int {
    amount - FeeOnInput(amount, fee)
  }

  function SpotOutputFeeAdjusted(m: Market, amount: int, zeroForOne: bool): int {
    SpotOutput(m, NetOfFee(amount, m.fee), zeroForOne)
  }

  /** The net input that buys `amountOut` with no fee. */
  function NetForOutput(m: Market, amountOut: int, zeroForOne: bool): int
    requires m.sqrtPrice > 0
  {
    Positive(m);
    if zeroForOne then CeilDiv(amountOut * Q192, Square(m)) else CeilDiv(amountOut * Square(m), Q192)
  }

  /** A net input grossed up by the fee. */
  function Grossed(net: int, fee: nat): int
    requires fee < FEE_DENOMINATOR
  {
    CeilDiv((net - 1) * FEE_DENOMINATOR + 1, FEE_DENOMINATOR - fee)
  }

  function SpotInputForOutput(m: Market, amountOut: int, zeroForOne: bool): int
    requires Registered(m)
  {
    if amountOut <= 0 || m.sqrtPrice == 0 then 0
    else Grossed(NetForOutput(m, amountOut, zeroForOne), m.fee)
  }

  /** The quote the precompile answers: an output for an exact input, an input for an exact output. */
  function ProjectSingleTick(m: Market, amount: int, zeroForOne: bool, exactIn: bool): int
    requires Registered(m)
  {
    if exactIn then SpotOutputFeeAdjusted(m, amount, zeroForOne) else SpotInputForOutput(m, amount, zeroForOne)
  }

  lemma Positive(m: Market)
    requires m.sqrtPrice > 0
    ensures Square(m) > 0
  {
  }

  /** The price step: a net input buys at least `out` exactly when it is at least the net input for `out`. */
  lemma PriceAdjunction(m: Market, net: int, out: int, zeroForOne: bool)
    requires m.sqrtPrice > 0
    ensures SpotOutput(m, net, zeroForOne) >= out <==> net >= NetForOutput(m, out, zeroForOne)
  {
    Positive(m);
    if zeroForOne {
      FloorAtLeast(net * Square(m), Q192, out);
      CeilAtMost(out * Q192, Square(m), net);
    } else {
      FloorAtLeast(net * Q192, Square(m), out);
      CeilAtMost(out * Square(m), Q192, net);
    }
  }

  lemma FeeCross(amount: int, fee: int, net: int)
    ensures amount * (FEE_DENOMINATOR - fee) == amount * FEE_DENOMINATOR - amount * fee
    ensures (amount - net + 1) * FEE_DENOMINATOR == amount * FEE_DENOMINATOR - (net - 1) * FEE_DENOMINATOR
  {
  }

  /** The fee step: an input nets at least `net` exactly when it is at least `net` grossed up. */
  lemma FeeAdjunction(amount: int, fee: nat, net: int)
    requires fee < FEE_DENOMINATOR
    ensures NetOfFee(amount, fee) >= net <==> amount >= Grossed(net, fee)
  {
    FloorAtLeast(amount * fee, FEE_DENOMINATOR, amount - net + 1);
    FeeCross(amount, fee, net);
    CeilAtMost((net - 1) * FEE_DENOMINATOR + 1, FEE_DENOMINATOR - fee, amount);
  }

  /** Both steps together, for any output. */
  lemma StepsAdjoin(m: Market, amount: int, out: int, zeroForOne: bool)
    requires Registered(m) && m.sqrtPrice > 0
    ensures SpotOutputFeeAdjusted(m, amount, zeroForOne) >= out
            <==> amount >= Grossed(NetForOutput(m, out, zeroForOne), m.fee)
  {
    PriceAdjunction(m, NetOfFee(amount, m.fee), out, zeroForOne);
    FeeAdjunction(amount, m.fee, NetForOutput(m, out, zeroForOne));
  }

  /** For every price, fee, direction and positive output, an input buys at least the output exactly when it
      is at least the quoted input: the quote covers the output and no smaller input does. */
  lemma QuoteAdjunction(m: Market, amount: int, out: int, zeroForOne: bool)
    requires Registered(m) && m.sqrtPrice > 0 && out > 0
    ensures ProjectSingleTick(m, amount, zeroForOne, true) >= out
            <==> amount >= ProjectSingleTick(m, out, zeroForOne, false)
  {
    StepsAdjoin(m, amount, out, zeroForOne);
  }

  /** The quoted input fills, and one unit less does not. */
  lemma QuoteIsLeast(m: Market, out: int, zeroForOne: bool)
    requires Registered(m) && m.sqrtPrice > 0 && out > 0
    ensures var quoted := ProjectSingleTick(m, out, zeroForOne, false);
            && quoted > 0
            && ProjectSingleTick(m, quoted, zeroForOne, true) >= out
            && ProjectSingleTick(m, quoted - 1, zeroForOne, true) < out
  {
    var quoted := SpotInputForOutput(m, out, zeroForOne);
    QuoteAdjunction(m, quoted, out, zeroForOne);
    QuoteAdjunction(m, quoted - 1, out, zeroForOne);
    QuoteAdjunction(m, 0, out, zeroForOne);
    NothingBuysNothing(m, zeroForOne);
  }

  lemma NothingBuysNothing(m: Market, zeroForOne: bool)
    ensures SpotOutputFeeAdjusted(m, 0, zeroForOne) == 0
  {
    assert 0 * m.fee == 0;
    assert NetOfFee(0, m.fee) == 0;
    if m.sqrtPrice > 0 {
      Positive(m);
      ZeroOver(Square(m));
    }
  }

  lemma ZeroOver(d: int)
    requires d > 0
    ensures 0 * Q192 / d == 0 && 0 * d / Q192 == 0
  {
  }

  /** Both quotes are monotone. */
  lemma QuotesMonotone(m: Market, a: int, b: int, x: int, y: int, zeroForOne: bool)
    requires Registered(m) && m.sqrtPrice > 0 && a <= b && x <= y
    ensures ProjectSingleTick(m, a, zeroForOne, true) <= ProjectSingleTick(m, b, zeroForOne, true)
    ensures 0 <= ProjectSingleTick(m, x, zeroForOne, false) <= ProjectSingleTick(m, y, zeroForOne, false)
  {
    var outA := SpotOutputFeeAdjusted(m, a, zeroForOne);
    StepsAdjoin(m, a, outA, zeroForOne);
    StepsAdjoin(m, b, outA, zeroForOne);
    if x > 0 {
      var inY := SpotInputForOutput(m, y, zeroForOne);
      QuoteAdjunction(m, inY, y, zeroForOne);
      QuoteAdjunction(m, inY, x, zeroForOne);
      QuoteIsLeast(m, x, zeroForOne);
    } else if y > 0 {
      QuoteIsLeast(m, y, zeroForOne);
    }
  }

  /** Quoting what an input buys never costs more than that input, and buys the same. */
  lemma QuoteThereAndBack(m: Market, amount: int, zeroForOne: bool)
    requires Registered(m) && ProjectSingleTick(m, amount, zeroForOne, true) > 0
    ensures var out := ProjectSingleTick(m, amount, zeroForOne, true);
            var back := ProjectSingleTick(m, out, zeroForOne, false);
            back <= amount && ProjectSingleTick(m, back, zeroForOne, true) == out
  {
    var out := SpotOutputFeeAdjusted(m, amount, zeroForOne);
    var back := SpotInputForOutput(m, out, zeroForOne);
    QuoteAdjunction(m, amount, out, zeroForOne);
    QuoteAdjunction(m, back, out, zeroForOne);
    QuoteAdjunction(m, back, out + 1, zeroForOne);
    QuoteAdjunction(m, amount, out + 1, zeroForOne);
  }

  /** A positive output's quote is honest exactly when the market carries a price: without one the quote is 0
      and buys nothing. */
  lemma QuoteCoversIffPriced(m: Market, out: int, zeroForOne: bool)
    requires Registered(m) && out > 0
    ensures ProjectSingleTick(m, ProjectSingleTick(m, out, zeroForOne, false), zeroForOne, true) >= out
            <==> m.sqrtPrice > 0
  {
    if m.sqrtPrice > 0 {
      QuoteIsLeast(m, out, zeroForOne);
    }
  }

  /** What is quoted, to the unit: with `net` the input less its fee of `fee` millionths, rounded down, the output is
      net times the squared price over 2^192, rounded down, or net times 2^192 over the squared price. */
  lemma QuoteIsPriced(m: Market, amount: int, fee: int, zeroForOne: bool)
    requires Registered(m) && m.sqrtPrice > 0 && IsFloor(fee, amount * m.fee, 1_000_000)
    ensures var out, net := ProjectSingleTick(m, amount, zeroForOne, true), amount - fee;
            if zeroForOne then
              IsFloor(out, net * (m.sqrtPrice * m.sqrtPrice),
                      0x1_0000_0000_0000_0000_0000_0000_0000_0000_0000_0000_0000_0000)
            else
              IsFloor(out, net * 0x1_0000_0000_0000_0000_0000_0000_0000_0000_0000_0000_0000_0000,
                      m.sqrtPrice * m.sqrtPrice)
  {
    FloorIsUnique(fee, amount * m.fee, FEE_DENOMINATOR);
    Positive(m);
    if zeroForOne {
      FloorIs((amount - fee) * Square(m), Q192);
    } else {
      FloorIs((amount - fee) * Q192, Square(m));
    }
  }

  /** The price is a fraction of 2^96, squared: 2^192 is 2^96 times itself. */
  lemma UnitPrice()
    ensures 0x1_0000_0000_0000_0000_0000_0000 * 0x1_0000_0000_0000_0000_0000_0000
            == 0x1_0000_0000_0000_0000_0000_0000_0000_0000_0000_0000_0000_0000
  {
  }

  /** Nothing is quoted without a price, nor asked for an output that is not positive. */
  lemma NothingQuoted(m: Market, amount: int, zeroForOne: bool, exactIn: bool)
    requires Registered(m) && (m.sqrtPrice == 0 || (!exactIn && amount <= 0))
    ensures ProjectSingleTick(m, amount, zeroForOne, exactIn) == 0
  {
  }

  /** At price four and no fee a hundred units buy four hundred, and twenty-five the other way. */
  lemma PriceFour(m: Market)
    requires m == Market(0x2_0000_0000_0000_0000_0000_0000, 0)
    ensures ProjectSingleTick(m, 100, true, true) == 400 && ProjectSingleTick(m, 100, false, true) == 25
    ensures ProjectSingleTick(m, 400, true, false) == 100 && ProjectSingleTick(m, 25, false, false) == 100
  {
  }
}

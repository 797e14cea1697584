/** The kinked interest-rate model: utilization, block rates, simple and compound accrual.
    Every division is the source's Euclidean one. */
module InterestRate {
  import opened Bytes
  import opened Rounding

  const RAY: int := 1_000_000_000_000_000_000
  const BLOCKS_PER_YEAR: int := 15_768_000

  datatype RateModel = RateModel(baseRate: int, slope1: int, slope2: int, optimal: int, reserveFactor: int)

  /** The ranges the constructors keep: rates not negative, a kink in (0, RAY], a proper reserve factor. */
  predicate Sound(m: RateModel) {
    m.baseRate >= 0 && m.slope1 >= 0 && m.slope2 >= 0 && 0 < m.optimal <= RAY && 0 <= m.reserveFactor <= RAY
  }

  /** The reinterpretation of a uint64 block count as int64. */
  function Int64(blocks: nat): int {
    if blocks < TWO63 then blocks else blocks - U64
  }

  function UtilizationRate(cash: int, borrows: int, reserves: int): int {
    if borrows == 0 then 0
    else
      var available := cash + borrows - reserves;
      if available <= 0 then RAY
      else
        var u := borrows * RAY / available;
        if u > RAY then RAY else u
  }

  function AnnualRate(m: RateModel, u: int): int {
    if u <= m.optimal then u * m.slope1 / RAY + m.baseRate
    else m.optimal * m.slope1 / RAY + m.baseRate + (u - m.optimal) * m.slope2 / RAY
  }

  function BorrowRate(m: RateModel, cash: int, borrows: int, reserves: int): int {
    AnnualRate(m, UtilizationRate(cash, borrows, reserves)) / BLOCKS_PER_YEAR
  }

  function SupplyRate(m: RateModel, cash: int, borrows: int, reserves: int): int {
    var rate := BorrowRate(m, cash, borrows, reserves) * UtilizationRate(cash, borrows, reserves) / RAY;
    rate * (RAY - m.reserveFactor) / RAY
  }

  function AccrueInterest(m: RateModel, principal: int, cash: int, borrows: int, reserves: int, blocks: nat): int {
    if blocks == 0 || principal == 0 then 0
    else principal * BorrowRate(m, cash, borrows, reserves) * Int64(blocks) / RAY
  }

  function ReserveAmount(m: RateModel, interest: int): int {
    interest * m.reserveFactor / RAY
  }

  function CompoundInterest(m: RateModel, principal: int, cash: int, borrows: int, reserves: int, blocks: nat): int {
    if blocks == 0 || principal == 0 then 0
    else if blocks <= 100 then AccrueInterest(m, principal, cash, borrows, reserves, blocks)
    else
      var rt := BorrowRate(m, cash, borrows, reserves) * Int64(blocks);
      principal * Compounded(rt) / RAY
  }

  /** rt + rt^2/2, the source's expansion of e^rt - 1. */
  function Compounded(rt: int): int {
    rt + rt * rt / RAY / 2
  }

  // ----- utilization -----

  lemma UtilizationRange(cash: int, borrows: int, reserves: int)
    requires borrows >= 0
    ensures 0 <= UtilizationRate(cash, borrows, reserves) <= RAY
  {
    if borrows != 0 && cash + borrows - reserves > 0 {
      DivNonNegative(borrows * RAY, cash + borrows - reserves);
    }
  }

  /** More borrowed or less cash, never less utilized: through zero, both caps and an empty pool. */
  lemma UtilizationMono(cash: int, borrows: int, cash': int, borrows': int, reserves: int)
    requires 0 <= borrows <= borrows' && cash' <= cash
    ensures UtilizationRate(cash, borrows, reserves) <= UtilizationRate(cash', borrows', reserves)
  {
    UtilizationRange(cash, borrows, reserves);
    UtilizationRange(cash', borrows', reserves);
    var available, available' := cash + borrows - reserves, cash' + borrows' - reserves;
    if borrows > 0 && available' > 0 {
      if cash' - reserves < 0 {
        MulMono(available', borrows', RAY);
        FloorAtLeast(borrows' * RAY, available', RAY);
      } else {
        CrossShares(borrows, borrows', cash - reserves, cash' - reserves);
        FractionMono(borrows * RAY, available, borrows' * RAY, available');
      }
    }
  }

  lemma CrossShares(b: int, b': int, k: int, k': int)
    requires 0 <= b <= b' && 0 <= k' <= k
    ensures b * RAY * (b' + k') <= b' * RAY * (b + k)
  {
    MulMono(b, b', k');
    MulMono(k', k, b');
    assert b * (b' + k') <= b' * (b + k) by {
      assert b * (b' + k') == b * b' + b * k' && b' * (b + k) == b * b' + k * b';
    }
    MulMono(b * (b' + k'), b' * (b + k), RAY);
    assert b * RAY * (b' + k') == b * (b' + k') * RAY && b' * RAY * (b + k) == b' * (b + k) * RAY;
  }

  // ----- rates -----

  lemma AnnualRateMono(m: RateModel, u: int, v: int)
    requires m.slope1 >= 0 && m.slope2 >= 0 && u <= v
    ensures AnnualRate(m, u) <= AnnualRate(m, v)
  {
    if v <= m.optimal {
      MulMono(u, v, m.slope1);
      DivMono(u * m.slope1, v * m.slope1, RAY);
    } else {
      DivNonNegative((v - m.optimal) * m.slope2, RAY);
      if u <= m.optimal {
        MulMono(u, m.optimal, m.slope1);
        DivMono(u * m.slope1, m.optimal * m.slope1, RAY);
      } else {
        MulMono(u - m.optimal, v - m.optimal, m.slope2);
        DivMono((u - m.optimal) * m.slope2, (v - m.optimal) * m.slope2, RAY);
      }
    }
  }

  /** The block rate never falls when borrows grow or cash shrinks, across the kink and both caps. */
  lemma BorrowRateMono(m: RateModel, cash: int, borrows: int, cash': int, borrows': int, reserves: int)
    requires m.slope1 >= 0 && m.slope2 >= 0
    requires 0 <= borrows <= borrows' && cash' <= cash
    ensures BorrowRate(m, cash, borrows, reserves) <= BorrowRate(m, cash', borrows', reserves)
  {
    UtilizationMono(cash, borrows, cash', borrows', reserves);
    AnnualRateMono(m, UtilizationRate(cash, borrows, reserves), UtilizationRate(cash', borrows', reserves));
    DivMono(AnnualRate(m, UtilizationRate(cash, borrows, reserves)),
            AnnualRate(m, UtilizationRate(cash', borrows', reserves)), BLOCKS_PER_YEAR);
  }

  lemma BorrowRateNonNegative(m: RateModel, cash: int, borrows: int, reserves: int)
    requires Sound(m) && borrows >= 0
    ensures BorrowRate(m, cash, borrows, reserves) >= 0
  {
    UtilizationRange(cash, borrows, reserves);
    AnnualRateMono(m, 0, UtilizationRate(cash, borrows, reserves));
    DivNonNegative(AnnualRate(m, UtilizationRate(cash, borrows, reserves)), BLOCKS_PER_YEAR);
  }

  /** Scaling by a fraction of RAY never increases a non-negative rate. */
  lemma ScaledDown(rate: int, f: int)
    requires rate >= 0 && f <= RAY
    ensures rate * f / RAY <= rate
  {
    MulMono(f, RAY, rate);
    DivMono(rate * f, rate * RAY, RAY);
  }

  lemma TwoShares(rate: int, u: int, kept: int)
    requires rate >= 0 && 0 <= u <= RAY && 0 <= kept <= RAY
    ensures rate * u / RAY * (RAY - kept) / RAY <= rate
  {
    ScaledDown(rate, u);
    MulMono(0, u, rate);
    DivNonNegative(rate * u, RAY);
    ScaledDown(rate * u / RAY, RAY - kept);
  }

  /** Suppliers never earn more per unit than borrowers pay. */
  lemma SupplyRateAtMostBorrowRate(m: RateModel, cash: int, borrows: int, reserves: int)
    requires Sound(m) && borrows >= 0
    ensures SupplyRate(m, cash, borrows, reserves) <= BorrowRate(m, cash, borrows, reserves)
  {
    BorrowRateNonNegative(m, cash, borrows, reserves);
    UtilizationRange(cash, borrows, reserves);
    TwoShares(BorrowRate(m, cash, borrows, reserves), UtilizationRate(cash, borrows, reserves), m.reserveFactor);
  }

  // ----- accrual -----

  /** Interest is never negative, as long as the block count is an int64. */
  lemma AccrualNonNegative(m: RateModel, principal: int, cash: int, borrows: int, reserves: int, blocks: nat)
    requires Sound(m) && principal >= 0 && borrows >= 0 && blocks < TWO63
    ensures AccrueInterest(m, principal, cash, borrows, reserves, blocks) >= 0
  {
    BorrowRateNonNegative(m, cash, borrows, reserves);
    DivNonNegative(principal * BorrowRate(m, cash, borrows, reserves) * blocks, RAY);
  }

  lemma FloorNegative(n: int, d: int)
    requires d > 0
    ensures n / d >= 0 <==> n >= 0
  {
  }

  lemma SignOfProduct(x: int, y: int)
    requires x >= 0
    ensures x * y >= 0 <==> x == 0 || y >= 0
  {
    if x > 0 && y < 0 {
      MulMono(y, -1, x);
    } else if y >= 0 {
      MulMono(0, y, x);
    }
  }

  /** Over a uint64 of blocks a charge is never negative exactly when the count is an int64 or there is nothing to
      charge: from 2^63 blocks on, any positive per-block charge turns negative. */
  lemma AccrualGainsIff(m: RateModel, principal: int, cash: int, borrows: int, reserves: int, blocks: nat)
    requires Sound(m) && principal >= 0 && borrows >= 0 && blocks < U64
    ensures AccrueInterest(m, principal, cash, borrows, reserves, blocks) >= 0
            <==> blocks < TWO63 || principal * BorrowRate(m, cash, borrows, reserves) == 0
  {
    BorrowRateNonNegative(m, cash, borrows, reserves);
    var perBlock := principal * BorrowRate(m, cash, borrows, reserves);
    MulMono(0, BorrowRate(m, cash, borrows, reserves), principal);
    SignOfProduct(perBlock, Int64(blocks));
    FloorNegative(perBlock * Int64(blocks), RAY);
  }

  lemma SimpleMono(m: RateModel, principal: int, cash: int, borrows: int, reserves: int, x: nat, y: nat)
    requires Sound(m) && principal >= 0 && borrows >= 0 && x <= y < TWO63
    ensures AccrueInterest(m, principal, cash, borrows, reserves, x)
            <= AccrueInterest(m, principal, cash, borrows, reserves, y)
  {
    BorrowRateNonNegative(m, cash, borrows, reserves);
    var perBlock := principal * BorrowRate(m, cash, borrows, reserves);
    AccrualNonNegative(m, principal, cash, borrows, reserves, y);
    MulMono(x, y, perBlock);
    DivMono(perBlock * x, perBlock * y, RAY);
  }

  lemma CompoundedMono(x: int, y: int)
    requires 0 <= x <= y
    ensures x <= Compounded(x) <= Compounded(y)
  {
    MulMono(x, y, x);
    MulMono(x, y, y);
    DivNonNegative(x * x, RAY);
    DivMono(x * x, y * y, RAY);
    DivMono(x * x / RAY, y * y / RAY, 2);
  }

  /** Compounding never pays less than simple interest. */
  lemma CompoundAtLeastSimple(m: RateModel, principal: int, cash: int, borrows: int, reserves: int, blocks: nat)
    requires Sound(m) && principal >= 0 && borrows >= 0 && blocks < TWO63
    ensures CompoundInterest(m, principal, cash, borrows, reserves, blocks)
            >= AccrueInterest(m, principal, cash, borrows, reserves, blocks)
  {
    if blocks > 100 && principal != 0 {
      BorrowRateNonNegative(m, cash, borrows, reserves);
      var rate := BorrowRate(m, cash, borrows, reserves);
      var rt := rate * blocks;
      CompoundedMono(0, rt);
      MulMono(rt, Compounded(rt), principal);
      assert principal * rate * blocks == rt * principal;
      DivMono(rt * principal, Compounded(rt) * principal, RAY);
    }
  }

  lemma CompoundTailMono(principal: int, rate: int, x: int, y: int)
    requires principal >= 0 && rate >= 0 && 0 <= x <= y
    ensures principal * Compounded(rate * x) / RAY <= principal * Compounded(rate * y) / RAY
  {
    MulMono(x, y, rate);
    CompoundedMono(rate * x, rate * y);
    MulMono(Compounded(rate * x), Compounded(rate * y), principal);
    DivMono(principal * Compounded(rate * x), principal * Compounded(rate * y), RAY);
  }

  /** Compound interest never falls as blocks pass, the switch of formula at 100 blocks included. */
  lemma CompoundMono(m: RateModel, principal: int, cash: int, borrows: int, reserves: int, x: nat, y: nat)
    requires Sound(m) && principal >= 0 && borrows >= 0 && x <= y < TWO63
    ensures CompoundInterest(m, principal, cash, borrows, reserves, x)
            <= CompoundInterest(m, principal, cash, borrows, reserves, y)
  {
    if x <= 100 {
      SimpleMono(m, principal, cash, borrows, reserves, x, y);
      CompoundAtLeastSimple(m, principal, cash, borrows, reserves, y);
    } else if principal != 0 {
      BorrowRateNonNegative(m, cash, borrows, reserves);
      CompoundTailMono(principal, BorrowRate(m, cash, borrows, reserves), x, y);
    }
  }

  // ----- the rates themselves -----

  /** Utilization is the borrowed fraction of cash + borrows - reserves, capped at one; one when nothing is left. */
  lemma UtilizationIs(cash: int, borrows: int, reserves: int, u: int)
    requires borrows != 0
    requires var available := cash + borrows - reserves;
             if available <= 0 then u >= 1_000_000_000_000_000_000
             else IsFloor(u, borrows * 1_000_000_000_000_000_000, available)
    ensures UtilizationRate(cash, borrows, reserves)
            == if u > 1_000_000_000_000_000_000 then 1_000_000_000_000_000_000 else
               if cash + borrows - reserves <= 0 then 1_000_000_000_000_000_000 else u
    ensures UtilizationRate(cash, 0, reserves) == 0
  {
    if cash + borrows - reserves > 0 {
      FloorIsUnique(u, borrows * RAY, cash + borrows - reserves);
    }
  }

  /** Up to the kink the rate rises from the base with the first slope, beyond it from the kink with the second. */
  lemma AnnualRateIs(m: RateModel, u: int, below: int, above: int)
    requires IsFloor(below, (if u <= m.optimal then u else m.optimal) * m.slope1, 1_000_000_000_000_000_000)
    requires u > m.optimal ==> IsFloor(above, (u - m.optimal) * m.slope2, 1_000_000_000_000_000_000)
    ensures AnnualRate(m, u) == m.baseRate + below + (if u > m.optimal then above else 0)
  {
    FloorIsUnique(below, (if u <= m.optimal then u else m.optimal) * m.slope1, RAY);
    if u > m.optimal {
      FloorIsUnique(above, (u - m.optimal) * m.slope2, RAY);
    }
  }

  /** A block's rate is the year's over 15,768,000 blocks; interest is the principal's share of it over the blocks,
      read as an int64. */
  lemma AccrueInterestIs(m: RateModel, principal: int, cash: int, borrows: int, reserves: int, blocks: nat, rate: int)
    requires IsFloor(rate, AnnualRate(m, UtilizationRate(cash, borrows, reserves)), 15_768_000)
    requires blocks < 0x1_0000_0000_0000_0000
    ensures BorrowRate(m, cash, borrows, reserves) == rate
    ensures var span := if blocks < 0x8000_0000_0000_0000 then blocks as int else blocks - 0x1_0000_0000_0000_0000;
            IsFloor(AccrueInterest(m, principal, cash, borrows, reserves, blocks), principal * rate * span,
                    1_000_000_000_000_000_000)
  {
    FloorIsUnique(rate, AnnualRate(m, UtilizationRate(cash, borrows, reserves)), 15_768_000);
    FloorIs(principal * rate * Int64(blocks), RAY);
    if blocks == 0 || principal == 0 {
      NoInterest(principal, rate, Int64(blocks));
    }
  }

  lemma NoInterest(principal: int, rate: int, span: int)
    requires principal == 0 || span == 0
    ensures principal * rate * span == 0
  {
    if principal == 0 {
      assert principal * rate == 0;
    }
  }

  /** Suppliers earn the borrow rate on the utilized part, less the reserve's fraction. */
  lemma SupplyRateIs(m: RateModel, cash: int, borrows: int, reserves: int, gross: int)
    requires IsFloor(gross, BorrowRate(m, cash, borrows, reserves) * UtilizationRate(cash, borrows, reserves),
                     1_000_000_000_000_000_000)
    ensures IsFloor(SupplyRate(m, cash, borrows, reserves),
                    gross * (1_000_000_000_000_000_000 - m.reserveFactor), 1_000_000_000_000_000_000)
  {
    FloorIsUnique(gross, BorrowRate(m, cash, borrows, reserves) * UtilizationRate(cash, borrows, reserves), RAY);
    FloorIs(gross * (RAY - m.reserveFactor), RAY);
  }

  /** Beyond a hundred blocks interest compounds to the second order, rt + rt^2 / 2. */
  lemma CompoundIs(m: RateModel, principal: int, cash: int, borrows: int, reserves: int, blocks: nat,
                   rt: int, square: int, half: int)
    requires 100 < blocks < 0x8000_0000_0000_0000 && rt == BorrowRate(m, cash, borrows, reserves) * blocks
    requires IsFloor(square, rt * rt, 1_000_000_000_000_000_000) && IsFloor(half, square, 2)
    ensures IsFloor(CompoundInterest(m, principal, cash, borrows, reserves, blocks), principal * (rt + half),
                    1_000_000_000_000_000_000)
  {
    FloorIsUnique(square, rt * rt, RAY);
    FloorIsUnique(half, square, 2);
    FloorIs(principal * (rt + half), RAY);
    if principal == 0 {
      assert principal * (rt + half) == 0;
    }
  }
}

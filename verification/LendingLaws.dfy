/** What the pool and the liquidator compute, told in products rather than quotients: every rounded value is the
    one integer its fraction lies above, and every refusal is a comparison of amounts. */
module LendingLaws {
  import opened Bytes
  import opened InterestRate
  import opened LendingInvariant
  import opened LendingState
  import opened Rounding
  import opened Wrappers

  // ----- health -----

  /** The health factor of a positive debt: the collateral cut by the collateral factor, over the debt. */
  lemma HealthIs(collateral: int, debt: int, r: Reserve, adjusted: int)
    requires debt > 0 && IsFloor(adjusted, collateral * r.collateralFactor, RAY)
    ensures IsFloor(HealthFactor(collateral, debt, r), adjusted * RAY, debt)
  {
    FloorIsUnique(adjusted, collateral * r.collateralFactor, RAY);
    FloorIs(adjusted * RAY, debt);
  }

  /** No debt is health a thousand to the pool's formula, and one to whoever asks for a position's. */
  lemma NoDebtIsHealthy(collateral: int, p: Position, r: Reserve)
    requires p.borrowAmount == 0
    ensures HealthFactor(collateral, 0, r) == 1_000 * 1_000_000_000_000_000_000
    ensures RecordedHealth(p, r) == 1_000_000_000_000_000_000
  {
  }

  /** A position of positive debt is healthy exactly when its supply, valued at the exchange rate and cut by the
      collateral factor, covers the debt. */
  lemma HealthyIff(p: Position, r: Reserve, value: int)
    requires p.borrowAmount > 0 && IsFloor(value, p.supplyShares * r.exchangeRate, RAY)
    ensures SupplyValue(p, r) == value
    ensures RecordedHealth(p, r) >= RAY <==> p.borrowAmount * RAY <= value * r.collateralFactor
  {
    FloorIsUnique(value, p.supplyShares * r.exchangeRate, RAY);
    EnoughIff(value, p.borrowAmount, r);
  }

  lemma EnoughIff(collateral: int, debt: int, r: Reserve)
    requires debt > 0
    ensures HealthFactor(collateral, debt, r) >= RAY <==> debt * RAY <= collateral * r.collateralFactor
  {
    var adjusted := collateral * r.collateralFactor / RAY;
    FloorIs(collateral * r.collateralFactor, RAY);
    HealthIs(collateral, debt, r, adjusted);
    FloorReaches(HealthFactor(collateral, debt, r), adjusted * RAY, debt, RAY);
    FloorReaches(adjusted, collateral * r.collateralFactor, RAY, debt);
    if adjusted >= debt {
      MulMono(debt, adjusted, RAY);
    } else {
      MulMono(adjusted + 1, debt, RAY);
    }
  }

  // ----- withdrawing -----

  /** A withdrawal at the current rate is paid exactly when what it leaves, cut by the collateral factor, covers the
      recorded debt, and what it takes does not exceed the cash; health is checked first. */
  lemma WithdrawPaidIff(s: Pool, user: Address, a: Address, shares: int, burned: int, left: int, underlying: int)
    requires a in s.reserves && (user, a) in s.positions
    requires var p, r := s.positions[(user, a)], s.reserves[a];
             && burned <= shares && burned <= p.supplyShares && (burned == shares || burned == p.supplyShares)
             && IsFloor(left, (p.supplyShares - burned) * r.exchangeRate, RAY)
             && IsFloor(underlying, burned * r.exchangeRate, RAY)
    ensures var p, r, o := s.positions[(user, a)], s.reserves[a], WithdrawNow(s, user, a, shares);
            && (o.result == Err(HealthFactorTooLow)
                <==> p.borrowAmount > 0 && left * r.collateralFactor < p.borrowAmount * RAY)
            && (o.result == Err(InsufficientLiquidity)
                <==> !(p.borrowAmount > 0 && left * r.collateralFactor < p.borrowAmount * RAY)
                     && underlying > r.totalSupply - r.totalBorrows)
            && o.result in {Ok(underlying), Err(HealthFactorTooLow), Err(InsufficientLiquidity)}
            && (o.result.Err? ==> o.pool == s)
            && (o.result.Ok? ==>
                  && o.pool.positions == s.positions[(user, a) := p.(supplyShares := p.supplyShares - burned)]
                  && o.pool.reserves == s.reserves[a := r.(totalSupply := r.totalSupply - underlying)]
                  && o.pool.balance == Transferred(s.balance, POOL, user, underlying)
                  && o.pool == s.(positions := o.pool.positions, reserves := o.pool.reserves, balance := o.pool.balance))
  {
    var p, r := s.positions[(user, a)], s.reserves[a];
    FloorIsUnique(left, (p.supplyShares - burned) * r.exchangeRate, RAY);
    FloorIsUnique(underlying, burned * r.exchangeRate, RAY);
    if p.borrowAmount > 0 {
      EnoughIff(left, p.borrowAmount, r);
    }
  }

  lemma WithdrawGuardIs(s: Pool, block: nat, user: Address, a: Address, shares: int)
    ensures WithdrawGuard(s, user, a).None? <==>
            && a in s.reserves && s.reserves[a].isActive
            && (user, a) in s.positions && s.positions[(user, a)].supplyShares != 0
    ensures WithdrawGuard(s, user, a).Some? ==>
              Withdrawn(s, block, user, a, shares) == Outcome(s, Err(WithdrawGuard(s, user, a).value))
  {
  }

  // ----- supplying, borrowing, repaying -----

  /** A supply mints the shares the amount is worth at the accrued rate, opening a position at the current index. */
  lemma SupplyMints(s: Pool, user: Address, a: Address, amount: int, minted: int)
    requires a in s.reserves && s.reserves[a].exchangeRate > 0
    requires IsFloor(minted, amount * RAY, s.reserves[a].exchangeRate)
    ensures var r, o := s.reserves[a], SupplyNow(s, user, a, amount);
            var p := if (user, a) in s.positions then s.positions[(user, a)] else Position(0, 0, r.borrowIndex);
            && o.result == Ok(minted)
            && o.pool == s.(balance := Transferred(s.balance, user, POOL, amount),
                            positions := s.positions[(user, a) := p.(supplyShares := p.supplyShares + minted)],
                            reserves := s.reserves[a := r.(totalSupply := r.totalSupply + amount)])
  {
    FloorIsUnique(minted, amount * RAY, s.reserves[a].exchangeRate);
  }

  lemma SupplyGuardIs(s: Pool, a: Address, amount: int)
    ensures SupplyGuard(s, a, amount).None? <==>
            && a in s.reserves && s.reserves[a].isActive && !s.reserves[a].isFrozen && amount > 0
            && (s.reserves[a].supplyCap <= 0 || s.reserves[a].totalSupply + amount <= s.reserves[a].supplyCap)
  {
  }

  lemma BorrowGuardIs(s: Pool, a: Address, amount: int)
    ensures BorrowGuard(s, a, amount).None? <==>
            && a in s.reserves && s.reserves[a].isActive && s.reserves[a].isBorrowEnabled && amount > 0
            && (s.reserves[a].borrowCap <= 0 || s.reserves[a].totalBorrows + amount <= s.reserves[a].borrowCap)
  {
  }

  /** A borrow at the current index is paid exactly when the supply, valued and cut by the collateral factor, covers
      the new debt, and the cash covers the amount; the limit is checked first. */
  lemma BorrowPaidIff(s: Pool, user: Address, a: Address, amount: int, value: int)
    requires a in s.reserves && (user, a) in s.positions
    requires IsFloor(value, s.positions[(user, a)].supplyShares * s.reserves[a].exchangeRate, RAY)
    ensures var p, r, o := s.positions[(user, a)], s.reserves[a], BorrowNow(s, user, a, amount);
            && (o.result == Err(MaxLTVExceeded) <==> value * r.collateralFactor < (p.borrowAmount + amount) * RAY)
            && (o.result == Err(InsufficientLiquidity)
                <==> value * r.collateralFactor >= (p.borrowAmount + amount) * RAY
                     && amount > r.totalSupply - r.totalBorrows)
            && o.result in {Ok(amount), Err(MaxLTVExceeded), Err(InsufficientLiquidity)}
            && (o.result.Err? ==> o.pool == s)
            && (o.result.Ok? ==>
                  o.pool == s.(balance := Transferred(s.balance, POOL, user, amount),
                               positions := s.positions[(user, a) := p.(borrowAmount := p.borrowAmount + amount,
                                                                       borrowIndex := r.borrowIndex)],
                               reserves := s.reserves[a := r.(totalBorrows := r.totalBorrows + amount)]))
  {
    var p, r := s.positions[(user, a)], s.reserves[a];
    FloorIsUnique(value, p.supplyShares * r.exchangeRate, RAY);
    FloorIs(value * r.collateralFactor, RAY);
    FloorReaches(MaxBorrow(p, r), value * r.collateralFactor, RAY, p.borrowAmount + amount);
  }

  lemma RepayGuardIs(s: Pool, user: Address, a: Address)
    ensures RepayGuard(s, user, a).None? <==>
            a in s.reserves && (user, a) in s.positions && s.positions[(user, a)].borrowAmount != 0
  {
  }

  /** A new reserve is empty, at index and rate one, open to supply and borrow and without caps. */
  lemma InitializedIs(s: Pool, a: Address, factor: int, bonus: int, m: Option<RateModel>, block: nat)
    ensures var o := Initialized(s, a, factor, bonus, m, block);
            && (o.result.Ok? <==> a !in s.reserves && factor <= 1_000_000_000_000_000_000)
            && (o.result.Err? ==> o.pool == s)
            && (o.result.Ok? ==>
                  && a in o.pool.reserves && o.pool == s.(reserves := o.pool.reserves, models := o.pool.models)
                  && o.pool.reserves - {a} == s.reserves - {a} && o.pool.models - {a} == s.models - {a}
                  && ModelOf(o.pool, a) == m)
    ensures Initialized(s, a, factor, bonus, m, block).result.Ok? ==>
              var r := Initialized(s, a, factor, bonus, m, block).pool.reserves[a];
              && r.totalSupply == r.totalBorrows == r.totalReserves == r.borrowCap == r.supplyCap == 0
              && r.exchangeRate == r.borrowIndex == 1_000_000_000_000_000_000
              && r.collateralFactor == factor && r.liquidationBonus == bonus && r.lastUpdateBlock == block
              && r.isActive && !r.isFrozen && r.isBorrowEnabled
  {
  }

  /** The switch and the cap of an existing reserve, and nothing else. */
  lemma SwitchesAre(s: Pool, a: Address, active: bool, cap: int)
    ensures ActiveSet(s, a, active)
            == if a in s.reserves then
                 Outcome(s.(reserves := s.reserves[a := s.reserves[a].(isActive := active)]), Ok(0))
               else Outcome(s, Err(ReserveNotFound))
    ensures BorrowCapSet(s, a, cap)
            == if a in s.reserves then
                 Outcome(s.(reserves := s.reserves[a := s.reserves[a].(borrowCap := cap)]), Ok(0))
               else Outcome(s, Err(ReserveNotFound))
  {
  }

  /** A repayment moves the amount, at most the debt; nothing bounds it below. */
  lemma RepayMoves(s: Pool, user: Address, a: Address, amount: int, n: int)
    requires a in s.reserves && (user, a) in s.positions
    requires var debt := s.positions[(user, a)].borrowAmount; n <= amount && n <= debt && (n == amount || n == debt)
    ensures var p, r := s.positions[(user, a)], s.reserves[a];
            RepayNow(s, user, a, amount)
            == Outcome(s.(balance := Transferred(s.balance, user, POOL, n),
                          positions := s.positions[(user, a) := p.(borrowAmount := p.borrowAmount - n,
                                                                  borrowIndex := r.borrowIndex)],
                          reserves := s.reserves[a := r.(totalBorrows := r.totalBorrows - n)]), Ok(n))
  {
  }

  /** Re-expressing a debt scales it by the ratio of the indices and rounds it down. */
  lemma RebasedIs(p: Position, r: Reserve, now: int)
    requires p.borrowIndex > 0 && IsFloor(now, p.borrowAmount * r.borrowIndex, p.borrowIndex)
    ensures Rebased(p, r).borrowAmount == now && Rebased(p, r).supplyShares == p.supplyShares
    ensures p.borrowAmount != 0 ==> Rebased(p, r).borrowIndex == r.borrowIndex
    ensures p.borrowAmount == 0 ==> Rebased(p, r) == p
  {
    FloorIsUnique(now, p.borrowAmount * r.borrowIndex, p.borrowIndex);
    FloorIsUnique(p.borrowAmount, p.borrowAmount * p.borrowIndex, p.borrowIndex);
    FloorIsUnique(0, 0, p.borrowIndex);
  }

  /** A balance is debited and credited modulo 2^256, whatever the amount. */
  lemma TransferMoves(b: map<Address, int>, from: Address, to: Address, amount: int, who: Address)
    requires from != to && who != from && who != to
    ensures var b' := Transferred(b, from, to, amount);
            && (BalanceOf(b', from) - BalanceOf(b, from) + amount) % U256 == 0 && 0 <= BalanceOf(b', from) < U256
            && (BalanceOf(b', to) - BalanceOf(b, to) - amount) % U256 == 0 && 0 <= BalanceOf(b', to) < U256
            && BalanceOf(b', who) == BalanceOf(b, who)
  {
    WrapsTo(BalanceOf(b, from), -amount);
    WrapsTo(BalanceOf(b, from), -(amount % U256));
    WrapsTo(BalanceOf(b, to), amount % U256);
    Whole(BalanceOf(b, from) - amount % U256, BalanceOf(b, from) - amount, amount);
    Whole(BalanceOf(b, to) + amount % U256, BalanceOf(b, to) + amount, -amount);
  }

  lemma WrapsTo(x: int, d: int)
    ensures 0 <= (x + d) % U256 < U256
  {
  }

  /** x and y differ by the multiple of 2^256 that cutting the amount takes off. */
  lemma Whole(x: int, y: int, amount: int)
    requires x - y == amount - amount % U256 || x - y == -(-amount - (-amount) % U256)
    ensures (x % U256 - y) % U256 == 0
  {
    var k := x / U256;
    var j := amount / U256;
    var i := (-amount) / U256;
    if x - y == amount - amount % U256 {
      Multiple(x % U256 - y, j - k);
    } else {
      Multiple(x % U256 - y, -i - k);
    }
  }

  lemma Multiple(x: int, k: int)
    requires x == k * U256
    ensures x % U256 == 0
  {
  }

  // ----- liquidating -----

  /** A liquidator of threshold T refuses a position as healthy exactly when its supply, valued and cut by the
      collateral factor, covers T times the debt. */
  lemma LiquidationRefusedIff(s: Pool, c: Config, liquidator: Address, borrower: Address, a: Address, asked: int,
                              value: int, adjusted: int)
    requires a in s.reserves && (borrower, a) in s.positions && s.positions[(borrower, a)].borrowAmount > 0
    requires RAY + s.reserves[a].liquidationBonus > 0 && s.reserves[a].exchangeRate != 0
    requires IsFloor(value, s.positions[(borrower, a)].supplyShares * s.reserves[a].exchangeRate, RAY)
    requires IsFloor(adjusted, value * s.reserves[a].collateralFactor, RAY)
    ensures var debt, o := s.positions[(borrower, a)].borrowAmount, Liquidated(s, c, liquidator, borrower, a, asked);
            && (o.result == Err(PositionHealthy) <==> c.threshold * debt <= adjusted * RAY)
            && (c.threshold == RAY ==>
                  (o.result == Err(PositionHealthy)
                   <==> debt * RAY <= value * s.reserves[a].collateralFactor))
  {
    var p, r := s.positions[(borrower, a)], s.reserves[a];
    FloorIsUnique(value, p.supplyShares * r.exchangeRate, RAY);
    HealthIs(value, p.borrowAmount, r, adjusted);
    FloorReaches(RecordedHealth(p, r), adjusted * RAY, p.borrowAmount, c.threshold);
    EnoughIff(value, p.borrowAmount, r);
  }

  /** A liquidation names the unknown reserve first, then the missing debt; whatever it refuses, nothing moves. */
  lemma LiquidationErrors(s: Pool, c: Config, liquidator: Address, borrower: Address, a: Address, asked: int)
    requires a in s.reserves ==> RAY + s.reserves[a].liquidationBonus > 0 && s.reserves[a].exchangeRate != 0
    ensures var o := Liquidated(s, c, liquidator, borrower, a, asked);
            && (o.result == Err(ReserveNotFound) <==> a !in s.reserves)
            && (o.result == Err(NoDebtToRepay) <==>
                  a in s.reserves && ((borrower, a) in s.positions ==> s.positions[(borrower, a)].borrowAmount == 0))
            && (o.result.Err? ==> o.pool == s)
  {
    if a in s.reserves && (borrower, a) in s.positions && s.positions[(borrower, a)].borrowAmount != 0 {
      assert SeizureFor(s.positions[(borrower, a)], s.reserves[a], c, asked).Err? ==>
          SeizureFor(s.positions[(borrower, a)], s.reserves[a], c, asked).error == LiquidationTooSmall;
    }
  }

  /** What is seized: the debt asked for up to the close factor's share, and the same with the bonus on top, unless
      that is more than the borrower has; then all of it, and the debt it pays for with the bonus taken back out. */
  lemma SeizureIs(p: Position, r: Reserve, c: Config, asked: int, most: int, debt: int, bonus: int, value: int)
    requires RAY + r.liquidationBonus > 0
    requires IsFloor(most, p.borrowAmount * c.closeFactor, RAY)
    requires debt <= asked && debt <= most && (debt == asked || debt == most)
    requires IsFloor(bonus, debt * r.liquidationBonus, RAY)
    requires IsFloor(value, p.supplyShares * r.exchangeRate, RAY)
    ensures var z := SeizureFor(p, r, c, asked);
            && (z == Err(LiquidationTooSmall) <==> debt < c.minLiquidation)
            && (z.Err? ==> z.error == LiquidationTooSmall)
            && (z.Ok? && debt + bonus <= value ==> z.value == Seizure(debt, debt + bonus))
            && (z.Ok? && debt + bonus > value ==>
                  && z.value.collateral == value
                  && IsFloor(z.value.debt, value * RAY, RAY + r.liquidationBonus))
  {
    FloorIsUnique(most, p.borrowAmount * c.closeFactor, RAY);
    FloorIsUnique(bonus, debt * r.liquidationBonus, RAY);
    FloorIsUnique(value, p.supplyShares * r.exchangeRate, RAY);
    FloorIs(value * RAY, RAY + r.liquidationBonus);
  }

  /** A liquidation pays the debt in and the collateral less the protocol's share of the bonus out, cuts shares and
      debt by what each is worth, neither below zero, and books the share as reserves. */
  lemma ExecutionIs(s: Pool, c: Config, liquidator: Address, borrower: Address, a: Address, z: Seizure,
                    fee: int, worth: int)
    requires a in s.reserves && (borrower, a) in s.positions && s.reserves[a].exchangeRate > 0
    requires IsFloor(fee, (z.collateral - z.debt) * c.protocolFee, RAY)
    requires IsFloor(worth, z.collateral * RAY, s.reserves[a].exchangeRate)
    ensures var p, r, s' := s.positions[(borrower, a)], s.reserves[a], Executed(s, c, liquidator, borrower, a, z);
            && s'.balance == Transferred(Transferred(s.balance, liquidator, POOL, z.debt), POOL, liquidator,
                                         z.collateral - fee)
            && s'.positions == s.positions[(borrower, a) := p.(
                 supplyShares := if worth > p.supplyShares then 0 else p.supplyShares - worth,
                 borrowAmount := if z.debt > p.borrowAmount then 0 else p.borrowAmount - z.debt)]
            && s'.reserves == s.reserves[a := r.(totalReserves := r.totalReserves + fee,
                                                 totalSupply := r.totalSupply - z.collateral,
                                                 totalBorrows := r.totalBorrows - z.debt)]
            && s'.fees == s.fees + fee && s'.models == s.models && s'.interest == s.interest
  {
    FloorIsUnique(fee, (z.collateral - z.debt) * c.protocolFee, RAY);
    FloorIsUnique(worth, z.collateral * RAY, s.reserves[a].exchangeRate);
  }

  // ----- interest -----

  /** One accrual: nothing before the block moves on, without borrows or a model; otherwise the interest of the rate
      model over the blocks passed on the cash, borrows and reserves of the moment. */
  lemma AccrualIs(r: Reserve, m: Option<RateModel>, block: nat)
    ensures block <= r.lastUpdateBlock ==> Accrued(r, m, block) == r
    ensures block > r.lastUpdateBlock && (r.totalBorrows == 0 || m.None?) ==>
              Accrued(r, m, block) == r.(lastUpdateBlock := block)
    ensures block > r.lastUpdateBlock && r.totalBorrows != 0 && m.Some? ==>
              Accrued(r, m, block)
              == WithInterest(r, m.value,
                              AccrueInterest(m.value, r.totalBorrows, r.totalSupply - r.totalBorrows, r.totalBorrows,
                                             r.totalReserves, block - r.lastUpdateBlock)).(lastUpdateBlock := block)
  {
  }
}

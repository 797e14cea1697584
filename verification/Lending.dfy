/** The lending pool and its liquidator as the objects they are, each method proved to compute its
    meaning in LendingState and to keep the pool solvent. */
module Lending {
  import opened Bytes
  import opened InterestRate
  import opened LendingInvariant
  import opened LendingRuns
  import opened LendingState
  import opened Wrappers

  class LendingPool {
    var reserves: map<Address, Reserve>
    var positions: map<(Address, Address), Position>
    var rateModels: map<Address, RateModel>
    /** The host's balances, as far as the pool moves them. */
    var balance: map<Address, int>
    ghost var interest: int
    ghost var fees: int

    ghost function State(): (s: Pool)
      reads this
    {
      Pool(reserves, positions, rateModels, balance, interest, fees)
    }

    constructor (host: map<Address, int>)
      ensures Inv(State()) && LendingRuns.Fresh(State()) && balance == host
    {
      reserves, positions, rateModels, balance := map[], map[], map[], host;
      interest, fees := 0, 0;
    }

    method InitializeReserve(block: nat, asset: Address, factor: int, bonus: int, model: Option<RateModel>)
        returns (r: Result<int, LendError>)
      modifies this
      ensures Outcome(State(), r) == old(Initialized(State(), asset, factor, bonus, model, block))
    {
      if asset in reserves { return Err(ReserveAlreadyExists); }
      if factor > RAY { return Err(InvalidCollateralFactor); }
      reserves := reserves[asset := Reserve(0, 0, 0, RAY, factor, bonus, 0, 0, block, true, false, true, RAY)];
      if model.Some? {
        rateModels := rateModels[asset := model.value];
      } else {
        rateModels := rateModels - {asset};
      }
      return Ok(0);
    }

    method SetReserveActive(asset: Address, active: bool) returns (r: Result<int, LendError>)
      modifies this
      ensures Outcome(State(), r) == old(ActiveSet(State(), asset, active))
    {
      if asset !in reserves { return Err(ReserveNotFound); }
      var reserve := reserves[asset].(isActive := active);
      reserves := reserves[asset := reserve];
      return Ok(0);
    }

    method SetBorrowCap(asset: Address, cap: int) returns (r: Result<int, LendError>)
      modifies this
      ensures Outcome(State(), r) == old(BorrowCapSet(State(), asset, cap))
    {
      if asset !in reserves { return Err(ReserveNotFound); }
      var reserve := reserves[asset].(borrowCap := cap);
      reserves := reserves[asset := reserve];
      return Ok(0);
    }

    /** Brings a reserve up to `block`. */
    method AccrueInterest(block: nat, asset: Address)
      requires asset in reserves
      modifies this
      ensures State() == old(AccruePool(State(), asset, block))
    {
      var r := reserves[asset];
      if block <= r.lastUpdateBlock {
        assert reserves[asset := r] == reserves;
        return;
      }
      if r.totalBorrows == 0 || asset !in rateModels {
        reserves := reserves[asset := r.(lastUpdateBlock := block)];
        return;
      }
      var cash := r.totalSupply - r.totalBorrows;
      var accrued := InterestRate.AccrueInterest(rateModels[asset], r.totalBorrows, cash, r.totalBorrows, r.totalReserves,
                                                 block - r.lastUpdateBlock);
      r := CreditInterest(r, rateModels[asset], accrued);
      interest := interest + accrued;
      reserves := reserves[asset := r.(lastUpdateBlock := block)];
    }

    /** Spreads accrued interest over the index, the totals and the exchange rate, field by field. */
    static method CreditInterest(reserve: Reserve, model: RateModel, accrued: int) returns (r: Reserve)
      requires reserve.totalBorrows != 0
      ensures r == WithInterest(reserve, model, accrued)
    {
      r := reserve;
      var rise := accrued * RAY;
      rise := rise / r.totalBorrows;
      r := r.(borrowIndex := r.borrowIndex + rise);
      r := r.(totalBorrows := r.totalBorrows + accrued);
      var kept := ReserveAmount(model, accrued);
      r := r.(totalReserves := r.totalReserves + kept);
      if r.totalSupply > 0 {
        var supplyInterest := accrued - kept;
        rise := supplyInterest * RAY;
        rise := rise / r.totalSupply;
        r := r.(exchangeRate := r.exchangeRate + rise);
      }
    }

    /** Re-expresses a position's debt at its reserve's index. */
    method UpdateUserBorrow(user: Address, asset: Address)
      requires asset in reserves && (user, asset) in positions
      modifies this`positions
      ensures State() == old(RebasePool(State(), user, asset))
    {
      var p, r := positions[(user, asset)], reserves[asset];
      if p.borrowAmount == 0 || p.borrowIndex == 0 || r.borrowIndex == p.borrowIndex {
        assert positions[(user, asset) := p] == positions;
        return;
      }
      p := p.(borrowAmount := p.borrowAmount * r.borrowIndex);
      p := p.(borrowAmount := p.borrowAmount / p.borrowIndex);
      p := p.(borrowIndex := r.borrowIndex);
      positions := positions[(user, asset) := p];
    }

    method TransferAsset(from: Address, to: Address, amount: int)
      modifies this`balance
      ensures balance == Transferred(old(balance), from, to, amount)
    {
      var n := amount % U256;
      balance := balance[from := (BalanceOf(balance, from) - n) % U256];
      balance := balance[to := (BalanceOf(balance, to) + n) % U256];
    }

    method Supply(block: nat, user: Address, asset: Address, amount: int) returns (r: Result<int, LendError>)
      requires asset in reserves ==> AccruePool(State(), asset, block).reserves[asset].exchangeRate != 0
      modifies this
      ensures Outcome(State(), r) == old(Supplied(State(), block, user, asset, amount))
    {
      if asset !in reserves { return Err(ReserveNotFound); }
      if !reserves[asset].isActive || reserves[asset].isFrozen { return Err(ReserveFrozen); }
      if amount <= 0 { return Err(InvalidAmount); }
      if reserves[asset].supplyCap > 0 {
        var newTotal := reserves[asset].totalSupply + amount;
        if newTotal > reserves[asset].supplyCap { return Err(SupplyCapExceeded); }
      }
      AccrueInterest(block, asset);
      r := SupplyCurrent(user, asset, amount);
    }

    method SupplyCurrent(user: Address, asset: Address, amount: int) returns (r: Result<int, LendError>)
      requires asset in reserves && reserves[asset].exchangeRate != 0
      modifies this
      ensures Outcome(State(), r) == old(SupplyNow(State(), user, asset, amount))
    {
      var reserve := reserves[asset];
      var tokens := amount * RAY / reserve.exchangeRate;
      var position := Position(0, 0, reserve.borrowIndex);
      if (user, asset) in positions {
        position := positions[(user, asset)];
      }
      TransferAsset(user, POOL, amount);
      positions := positions[(user, asset) := position.(supplyShares := position.supplyShares + tokens)];
      reserves := reserves[asset := reserve.(totalSupply := reserve.totalSupply + amount)];
      r := Ok(tokens);
    }

    method Withdraw(block: nat, user: Address, asset: Address, shareAmount: int) returns (r: Result<int, LendError>)
      modifies this
      ensures Outcome(State(), r) == old(Withdrawn(State(), block, user, asset, shareAmount))
    {
      if asset !in reserves { return Err(ReserveNotFound); }
      if !reserves[asset].isActive { return Err(ReserveFrozen); }
      if (user, asset) !in positions || positions[(user, asset)].supplyShares == 0 { return Err(InsufficientBalance); }
      AccrueInterest(block, asset);
      r := WithdrawCurrent(user, asset, shareAmount);
    }

    method WithdrawCurrent(user: Address, asset: Address, shareAmount: int) returns (r: Result<int, LendError>)
      requires asset in reserves && (user, asset) in positions
      modifies this
      ensures Outcome(State(), r) == old(WithdrawNow(State(), user, asset, shareAmount))
    {
      var reserve, position := reserves[asset], positions[(user, asset)];
      var shares := shareAmount;
      if shares > position.supplyShares {
        shares := position.supplyShares;
      }
      var underlying := shares * reserve.exchangeRate / RAY;
      if position.borrowAmount > 0 {
        var value := (position.supplyShares - shares) * reserve.exchangeRate / RAY;
        var health := HealthFactor(value, position.borrowAmount, reserve);
        if health < RAY { return Err(HealthFactorTooLow); }
      }
      var available := reserve.totalSupply - reserve.totalBorrows;
      if underlying > available { return Err(InsufficientLiquidity); }
      positions := positions[(user, asset) := position.(supplyShares := position.supplyShares - shares)];
      reserves := reserves[asset := reserve.(totalSupply := reserve.totalSupply - underlying)];
      TransferAsset(POOL, user, underlying);
      r := Ok(underlying);
    }

    method Borrow(block: nat, user: Address, asset: Address, amount: int) returns (r: Result<int, LendError>)
      modifies this
      ensures Outcome(State(), r) == old(Borrowed(State(), block, user, asset, amount))
    {
      if asset !in reserves { return Err(ReserveNotFound); }
      if !reserves[asset].isActive || !reserves[asset].isBorrowEnabled { return Err(BorrowDisabled); }
      if amount <= 0 { return Err(InvalidAmount); }
      if reserves[asset].borrowCap > 0 {
        var newTotal := reserves[asset].totalBorrows + amount;
        if newTotal > reserves[asset].borrowCap { return Err(BorrowCapExceeded); }
      }
      AccrueInterest(block, asset);
      if (user, asset) !in positions { return Err(InsufficientCollateral); }
      UpdateUserBorrow(user, asset);
      r := BorrowCurrent(user, asset, amount);
    }

    method BorrowCurrent(user: Address, asset: Address, amount: int) returns (r: Result<int, LendError>)
      requires asset in reserves && (user, asset) in positions
      modifies this
      ensures Outcome(State(), r) == old(BorrowNow(State(), user, asset, amount))
    {
      var reserve, position := reserves[asset], positions[(user, asset)];
      var supplyValue := position.supplyShares * reserve.exchangeRate / RAY;
      var maxBorrow := supplyValue * reserve.collateralFactor / RAY;
      var newBorrow := position.borrowAmount + amount;
      if newBorrow > maxBorrow { return Err(MaxLTVExceeded); }
      var available := reserve.totalSupply - reserve.totalBorrows;
      if amount > available { return Err(InsufficientLiquidity); }
      positions := positions[(user, asset) := position.(borrowAmount := newBorrow, borrowIndex := reserve.borrowIndex)];
      reserves := reserves[asset := reserve.(totalBorrows := reserve.totalBorrows + amount)];
      TransferAsset(POOL, user, amount);
      r := Ok(amount);
    }

    method Repay(block: nat, user: Address, asset: Address, amount: int) returns (r: Result<int, LendError>)
      modifies this
      ensures Outcome(State(), r) == old(Repaid(State(), block, user, asset, amount))
    {
      if asset !in reserves { return Err(ReserveNotFound); }
      if (user, asset) !in positions || positions[(user, asset)].borrowAmount == 0 { return Err(NoDebtToRepay); }
      AccrueInterest(block, asset);
      UpdateUserBorrow(user, asset);
      r := RepayCurrent(user, asset, amount);
    }

    method RepayCurrent(user: Address, asset: Address, amount: int) returns (r: Result<int, LendError>)
      requires asset in reserves && (user, asset) in positions
      modifies this
      ensures Outcome(State(), r) == old(RepayNow(State(), user, asset, amount))
    {
      var reserve, position := reserves[asset], positions[(user, asset)];
      var n := amount;
      if n > position.borrowAmount {
        n := position.borrowAmount;
      }
      TransferAsset(user, POOL, n);
      positions := positions[(user, asset) :=
        position.(borrowAmount := position.borrowAmount - n, borrowIndex := reserve.borrowIndex)];
      reserves := reserves[asset := reserve.(totalBorrows := reserve.totalBorrows - n)];
      r := Ok(n);
    }

    /** Stores a position and its reserve, and books a liquidation fee. */
    method Book(user: Address, asset: Address, position: Position, reserve: Reserve, fee: int)
      modifies this`positions, this`reserves, this`fees
      ensures positions == old(positions)[(user, asset) := position] && reserves == old(reserves)[asset := reserve]
      ensures fees == old(fees) + fee
    {
      positions := positions[(user, asset) := position];
      reserves := reserves[asset := reserve];
      fees := fees + fee;
    }

    /** The health factor recorded debt gives; 1 where there is no reserve or no debt. */
    method GetHealthFactor(user: Address, asset: Address) returns (health: int)
      ensures health == if asset in reserves && (user, asset) in positions
                        then RecordedHealth(positions[(user, asset)], reserves[asset]) else RAY
    {
      if asset !in reserves { return RAY; }
      if (user, asset) !in positions || positions[(user, asset)].borrowAmount == 0 { return RAY; }
      var supplyValue := positions[(user, asset)].supplyShares * reserves[asset].exchangeRate / RAY;
      health := HealthFactor(supplyValue, positions[(user, asset)].borrowAmount, reserves[asset]);
    }
  }

  datatype LiquidationEvent =
    LiquidationEvent(liquidator: Address, borrower: Address, asset: Address,
                     debt: int, collateral: int, bonus: int, block: nat)

  class Liquidator {
    const pool: LendingPool
    var config: Config
    var liquidations: seq<LiquidationEvent>

    /** Half the debt at a time, below health 1, a tenth of the bonus kept. */
    constructor (p: LendingPool)
      ensures pool == p && ConfigSound(config) && liquidations == [] && config.threshold == RAY
      ensures config.closeFactor * 2 == RAY && config.protocolFee * 10 == RAY
    {
      pool := p;
      config := Config(50 * RAY / 100, RAY, 10 * RAY / 100, 0);
      liquidations := [];
    }

    /** Accepts exactly the factors in (0, 1]. */
    method SetCloseFactor(factor: int) returns (ok: bool)
      modifies this`config
      ensures ok <==> 0 < factor <= RAY
      ensures config == if ok then old(config).(closeFactor := factor) else old(config)
      ensures old(ConfigSound(config)) ==> ConfigSound(config)
    {
      if factor <= 0 || factor > RAY { return false; }
      config := config.(closeFactor := factor);
      return true;
    }

    /** Accepts exactly the fees in [0, 1]. */
    method SetProtocolFee(fee: int) returns (ok: bool)
      modifies this`config
      ensures ok <==> 0 <= fee <= RAY
      ensures config == if ok then old(config).(protocolFee := fee) else old(config)
      ensures old(ConfigSound(config)) ==> ConfigSound(config)
    {
      if fee < 0 || fee > RAY { return false; }
      config := config.(protocolFee := fee);
      return true;
    }

    /** Repays part of an unhealthy position's debt for its collateral and a bonus; the two results are the
        debt repaid and the collateral seized, and every success is appended to the history. */
    method Liquidate(block: nat, liquidator: Address, borrower: Address, asset: Address, debtToRepay: int)
        returns (r: Result<int, LendError>, seized: int)
      requires asset in pool.reserves ==>
                 RAY + pool.reserves[asset].liquidationBonus > 0 && pool.reserves[asset].exchangeRate != 0
      modifies this`liquidations, pool
      ensures Outcome(pool.State(), r) == old(Liquidated(pool.State(), config, liquidator, borrower, asset, debtToRepay))
      ensures liquidations == old(liquidations) + if r.Err? then [] else
                [LiquidationEvent(liquidator, borrower, asset, r.value, seized, seized - r.value, block)]
      ensures r.Ok? ==> old(SeizureFor(pool.positions[(borrower, asset)], pool.reserves[asset], config, debtToRepay))
                        == Ok(Seizure(r.value, seized))
    {
      seized := 0;
      if asset !in pool.reserves { return Err(ReserveNotFound), 0; }
      var reserve := pool.reserves[asset];
      if (borrower, asset) !in pool.positions || pool.positions[(borrower, asset)].borrowAmount == 0 {
        return Err(NoDebtToRepay), 0;
      }
      var position := pool.positions[(borrower, asset)];
      var health := pool.GetHealthFactor(borrower, asset);
      if health >= config.threshold { return Err(PositionHealthy), 0; }
      var maxDebt := position.borrowAmount * config.closeFactor / RAY;
      var debt := debtToRepay;
      if debt > maxDebt {
        debt := maxDebt;
      }
      if debt < config.minLiquidation { return Err(LiquidationTooSmall), 0; }
      var bonus := debt * reserve.liquidationBonus / RAY;
      seized := debt + bonus;
      var supplyValue := position.supplyShares * reserve.exchangeRate / RAY;
      if seized > supplyValue {
        seized := supplyValue;
        debt := seized * RAY / (RAY + reserve.liquidationBonus);
        bonus := seized - debt;
      }
      ExecuteLiquidation(liquidator, borrower, asset, debt, seized);
      liquidations := liquidations + [LiquidationEvent(liquidator, borrower, asset, debt, seized, bonus, block)];
      r := Ok(debt);
    }

    /** A position less the shares worth `seized` and the debt repaid, neither below zero. */
    static method SeizeFrom(position: Position, reserve: Reserve, debt: int, seized: int) returns (p: Position)
      requires reserve.exchangeRate != 0
      ensures p == position.(
        supplyShares := position.supplyShares - SharesSeized(position, reserve, Seizure(debt, seized)),
        borrowAmount := if position.borrowAmount < debt then 0 else position.borrowAmount - debt)
    {
      var shares := seized * RAY;
      shares := shares / reserve.exchangeRate;
      if shares > position.supplyShares {
        shares := position.supplyShares;
      }
      p := position.(supplyShares := position.supplyShares - shares);
      p := p.(borrowAmount := p.borrowAmount - debt);
      if p.borrowAmount < 0 {
        p := p.(borrowAmount := 0);
      }
    }

    method ExecuteLiquidation(liquidator: Address, borrower: Address, asset: Address, debt: int, seized: int)
      requires asset in pool.reserves && (borrower, asset) in pool.positions && pool.reserves[asset].exchangeRate != 0
      modifies pool
      ensures pool.State()
              == old(Executed(pool.State(), config, liquidator, borrower, asset, Seizure(debt, seized)))
    {
      hide Transferred, ProtocolFeeOn, SharesSeized;
      pool.TransferAsset(liquidator, POOL, debt);
      var reserve := pool.reserves[asset];
      var position := SeizeFrom(pool.positions[(borrower, asset)], reserve, debt, seized);
      var fee := ProtocolFeeOn(Seizure(debt, seized), config);
      pool.TransferAsset(POOL, liquidator, seized - fee);
      reserve := reserve.(totalReserves := reserve.totalReserves + fee);
      reserve := reserve.(totalSupply := reserve.totalSupply - seized, totalBorrows := reserve.totalBorrows - debt);
      pool.Book(borrower, asset, position, reserve, fee);
    }
  }
}

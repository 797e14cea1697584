/** The lending pool and its liquidator as values: reserves, positions and balances, with the
    meaning of every operation, error returns included. An error keeps whatever was already
    accrued in memory, as the source's shared records do. */
module LendingState {
  import opened Bytes
  import opened InterestRate
  import opened Wrappers

  const POOL: Address := Zeros(18) + [0x90, 0x50]

  datatype Reserve = Reserve(
    totalSupply: int, totalBorrows: int, totalReserves: int, exchangeRate: int,
    collateralFactor: int, liquidationBonus: int, borrowCap: int, supplyCap: int,
    lastUpdateBlock: nat, isActive: bool, isFrozen: bool, isBorrowEnabled: bool, borrowIndex: int)

  datatype Position = Position(supplyShares: int, borrowAmount: int, borrowIndex: int)

  /** interest and fees are history: all interest ever accrued, all protocol fees ever kept. */
  datatype Pool = Pool(
    reserves: map<Address, Reserve>, positions: map<(Address, Address), Position>,
    models: map<Address, RateModel>, balance: map<Address, int>, interest: int, fees: int)

  datatype Config = Config(closeFactor: int, threshold: int, protocolFee: int, minLiquidation: int)

  datatype LendError =
    | ReserveAlreadyExists | InvalidCollateralFactor | ReserveNotFound | ReserveFrozen | InvalidAmount
    | SupplyCapExceeded | InsufficientBalance | HealthFactorTooLow | InsufficientLiquidity | BorrowDisabled
    | BorrowCapExceeded | InsufficientCollateral | MaxLTVExceeded | NoDebtToRepay | PositionHealthy
    | LiquidationTooSmall

  datatype Outcome = Outcome(pool: Pool, result: Result<int, LendError>)

  // ----- balances: unchecked 256-bit arithmetic -----

  function BalanceOf(b: map<Address, int>, who: Address): int {
    if who in b then b[who] else 0
  }

  /** SubBalance then AddBalance; the amount is cut to 256 bits and both sides wrap. */
  function Transferred(b: map<Address, int>, from: Address, to: Address, amount: int): map<Address, int> {
    var n := amount % U256;
    var b' := b[from := (BalanceOf(b, from) - n) % U256];
    b'[to := (BalanceOf(b', to) + n) % U256]
  }

  // ----- accrual -----

  /** The interest one accrual adds to a reserve. */
  function InterestDue(r: Reserve, m: Option<RateModel>, block: nat): int {
    if block <= r.lastUpdateBlock || r.totalBorrows == 0 || m.None? then 0
    else AccrueInterest(m.value, r.totalBorrows, r.totalSupply - r.totalBorrows, r.totalBorrows, r.totalReserves,
                        block - r.lastUpdateBlock)
  }

  /** A reserve credited with `due` interest: index, totals and exchange rate, each rounded down. */
  function WithInterest(r: Reserve, m: RateModel, due: int): Reserve
    requires r.totalBorrows != 0
  {
    var kept := ReserveAmount(m, due);
    r.(borrowIndex := r.borrowIndex + due * RAY / r.totalBorrows,
       totalBorrows := r.totalBorrows + due,
       totalReserves := r.totalReserves + kept,
       exchangeRate := if r.totalSupply > 0 then r.exchangeRate + (due - kept) * RAY / r.totalSupply
                       else r.exchangeRate)
  }

  function Accrued(r: Reserve, m: Option<RateModel>, block: nat): Reserve {
    if block <= r.lastUpdateBlock then r
    else if r.totalBorrows == 0 || m.None? then r.(lastUpdateBlock := block)
    else WithInterest(r, m.value, InterestDue(r, m, block)).(lastUpdateBlock := block)
  }

  function ModelOf(s: Pool, a: Address): Option<RateModel> {
    if a in s.models then Some(s.models[a]) else None
  }

  /** The pool with asset `a` brought up to `block`. */
  function AccruePool(s: Pool, a: Address, block: nat): Pool
    requires a in s.reserves
  {
    s.(reserves := s.reserves[a := Accrued(s.reserves[a], ModelOf(s, a), block)],
       interest := s.interest + InterestDue(s.reserves[a], ModelOf(s, a), block))
  }

  /** A position's debt re-expressed at the reserve's index. */
  function Rebased(p: Position, r: Reserve): Position {
    if p.borrowAmount == 0 || p.borrowIndex == 0 || r.borrowIndex == p.borrowIndex then p
    else p.(borrowAmount := p.borrowAmount * r.borrowIndex / p.borrowIndex, borrowIndex := r.borrowIndex)
  }

  /** The pool with one position's debt re-expressed at its reserve's index. */
  function RebasePool(s: Pool, user: Address, a: Address): Pool
    requires a in s.reserves && (user, a) in s.positions
  {
    s.(positions := s.positions[(user, a) := Rebased(s.positions[(user, a)], s.reserves[a])])
  }

  function SupplyValue(p: Position, r: Reserve): int {
    p.supplyShares * r.exchangeRate / RAY
  }

  function HealthFactor(collateral: int, debt: int, r: Reserve): int {
    if debt == 0 then RAY * 1000
    else collateral * r.collateralFactor / RAY * RAY / debt
  }

  // ----- administration -----

  function Initialized(s: Pool, a: Address, factor: int, bonus: int, m: Option<RateModel>, block: nat): Outcome {
    if a in s.reserves then Outcome(s, Err(ReserveAlreadyExists))
    else if factor > RAY then Outcome(s, Err(InvalidCollateralFactor))
    else
      var r := Reserve(0, 0, 0, RAY, factor, bonus, 0, 0, block, true, false, true, RAY);
      Outcome(s.(reserves := s.reserves[a := r],
                 models := if m.Some? then s.models[a := m.value] else s.models - {a}), Ok(0))
  }

  function ActiveSet(s: Pool, a: Address, active: bool): Outcome {
    if a !in s.reserves then Outcome(s, Err(ReserveNotFound))
    else Outcome(s.(reserves := s.reserves[a := s.reserves[a].(isActive := active)]), Ok(0))
  }

  function BorrowCapSet(s: Pool, a: Address, cap: int): Outcome {
    if a !in s.reserves then Outcome(s, Err(ReserveNotFound))
    else Outcome(s.(reserves := s.reserves[a := s.reserves[a].(borrowCap := cap)]), Ok(0))
  }

  // ----- the four user operations -----

  function SupplyGuard(s: Pool, a: Address, amount: int): Option<LendError> {
    if a !in s.reserves then Some(ReserveNotFound)
    else
      var r := s.reserves[a];
      if !r.isActive || r.isFrozen then Some(ReserveFrozen)
      else if amount <= 0 then Some(InvalidAmount)
      else if r.supplyCap > 0 && r.totalSupply + amount > r.supplyCap then Some(SupplyCapExceeded)
      else None
  }

  /** A supply at the current exchange rate; a first supply opens the position. */
  function SupplyNow(s: Pool, user: Address, a: Address, amount: int): Outcome
    requires a in s.reserves && s.reserves[a].exchangeRate != 0
  {
    var r := s.reserves[a];
    var tokens := amount * RAY / r.exchangeRate;
    var p := if (user, a) in s.positions then s.positions[(user, a)] else Position(0, 0, r.borrowIndex);
    Outcome(s.(balance := Transferred(s.balance, user, POOL, amount),
               positions := s.positions[(user, a) := p.(supplyShares := p.supplyShares + tokens)],
               reserves := s.reserves[a := r.(totalSupply := r.totalSupply + amount)]), Ok(tokens))
  }

  function Supplied(s: Pool, block: nat, user: Address, a: Address, amount: int): Outcome
    requires a in s.reserves ==> AccruePool(s, a, block).reserves[a].exchangeRate != 0
  {
    match SupplyGuard(s, a, amount)
    case Some(e) => Outcome(s, Err(e))
    case None => SupplyNow(AccruePool(s, a, block), user, a, amount)
  }

  function WithdrawGuard(s: Pool, user: Address, a: Address): Option<LendError> {
    if a !in s.reserves then Some(ReserveNotFound)
    else if !s.reserves[a].isActive then Some(ReserveFrozen)
    else if (user, a) !in s.positions || s.positions[(user, a)].supplyShares == 0 then Some(InsufficientBalance)
    else None
  }

  /** A withdrawal at the current exchange rate, checked against the recorded debt and the cash. */
  function WithdrawNow(s: Pool, user: Address, a: Address, shares: int): Outcome
    requires a in s.reserves && (user, a) in s.positions
  {
    var r, p := s.reserves[a], s.positions[(user, a)];
    var burned := if shares > p.supplyShares then p.supplyShares else shares;
    var underlying := burned * r.exchangeRate / RAY;
    if p.borrowAmount > 0 && HealthFactor((p.supplyShares - burned) * r.exchangeRate / RAY, p.borrowAmount, r) < RAY
    then Outcome(s, Err(HealthFactorTooLow))
    else if underlying > r.totalSupply - r.totalBorrows then Outcome(s, Err(InsufficientLiquidity))
    else
      Outcome(s.(balance := Transferred(s.balance, POOL, user, underlying),
                 positions := s.positions[(user, a) := p.(supplyShares := p.supplyShares - burned)],
                 reserves := s.reserves[a := r.(totalSupply := r.totalSupply - underlying)]), Ok(underlying))
  }

  function Withdrawn(s: Pool, block: nat, user: Address, a: Address, shares: int): Outcome {
    match WithdrawGuard(s, user, a)
    case Some(e) => Outcome(s, Err(e))
    case None => WithdrawNow(AccruePool(s, a, block), user, a, shares)
  }

  /** A user's debt and the reserve's total borrows both moved by `x`, the debt recorded at the current index. */
  function Indebted(s: Pool, user: Address, a: Address, x: int): Pool
    requires a in s.reserves && (user, a) in s.positions
  {
    var p, r := s.positions[(user, a)], s.reserves[a];
    s.(positions := s.positions[(user, a) := p.(borrowAmount := p.borrowAmount + x, borrowIndex := r.borrowIndex)],
       reserves := s.reserves[a := r.(totalBorrows := r.totalBorrows + x)])
  }

  function BorrowGuard(s: Pool, a: Address, amount: int): Option<LendError> {
    if a !in s.reserves then Some(ReserveNotFound)
    else
      var r := s.reserves[a];
      if !r.isActive || !r.isBorrowEnabled then Some(BorrowDisabled)
      else if amount <= 0 then Some(InvalidAmount)
      else if r.borrowCap > 0 && r.totalBorrows + amount > r.borrowCap then Some(BorrowCapExceeded)
      else None
  }

  /** The most a position may owe against its own supply. */
  function MaxBorrow(p: Position, r: Reserve): int {
    SupplyValue(p, r) * r.collateralFactor / RAY
  }

  /** A borrow by a position whose debt already stands at the current index. */
  function BorrowNow(s: Pool, user: Address, a: Address, amount: int): Outcome
    requires a in s.reserves && (user, a) in s.positions
  {
    var p, r := s.positions[(user, a)], s.reserves[a];
    if p.borrowAmount + amount > MaxBorrow(p, r) then Outcome(s, Err(MaxLTVExceeded))
    else if amount > r.totalSupply - r.totalBorrows then Outcome(s, Err(InsufficientLiquidity))
    else
      Outcome(Indebted(s, user, a, amount).(balance := Transferred(s.balance, POOL, user, amount)), Ok(amount))
  }

  function Borrowed(s: Pool, block: nat, user: Address, a: Address, amount: int): Outcome {
    match BorrowGuard(s, a, amount)
    case Some(e) => Outcome(s, Err(e))
    case None =>
      var s1 := AccruePool(s, a, block);
      if (user, a) !in s1.positions then Outcome(s1, Err(InsufficientCollateral))
      else BorrowNow(RebasePool(s1, user, a), user, a, amount)
  }

  function RepayGuard(s: Pool, user: Address, a: Address): Option<LendError> {
    if a !in s.reserves then Some(ReserveNotFound)
    else if (user, a) !in s.positions || s.positions[(user, a)].borrowAmount == 0 then Some(NoDebtToRepay)
    else None
  }

  function RepayNow(s: Pool, user: Address, a: Address, amount: int): Outcome
    requires a in s.reserves && (user, a) in s.positions
  {
    var p := s.positions[(user, a)];
    var n := if amount > p.borrowAmount then p.borrowAmount else amount;
    Outcome(Indebted(s, user, a, -n).(balance := Transferred(s.balance, user, POOL, n)), Ok(n))
  }

  function Repaid(s: Pool, block: nat, user: Address, a: Address, amount: int): Outcome {
    match RepayGuard(s, user, a)
    case Some(e) => Outcome(s, Err(e))
    case None => RepayNow(RebasePool(AccruePool(s, a, block), user, a), user, a, amount)
  }

  // ----- liquidation -----

  /** The health factor the liquidator reads: recorded, not re-indexed, debt. */
  function RecordedHealth(p: Position, r: Reserve): int {
    if p.borrowAmount == 0 then RAY else HealthFactor(SupplyValue(p, r), p.borrowAmount, r)
  }

  datatype Seizure = Seizure(debt: int, collateral: int)

  /** Debt capped by the close factor, collateral with bonus capped by what the borrower has. */
  function SeizureFor(p: Position, r: Reserve, c: Config, asked: int): Result<Seizure, LendError>
    requires RAY + r.liquidationBonus > 0
  {
    var maxDebt := p.borrowAmount * c.closeFactor / RAY;
    var debt := if asked > maxDebt then maxDebt else asked;
    if debt < c.minLiquidation then Err(LiquidationTooSmall)
    else
      var collateral := debt + debt * r.liquidationBonus / RAY;
      var value := SupplyValue(p, r);
      if collateral > value then Ok(Seizure(value * RAY / (RAY + r.liquidationBonus), value))
      else Ok(Seizure(debt, collateral))
  }

  function ProtocolFeeOn(z: Seizure, c: Config): int {
    (z.collateral - z.debt) * c.protocolFee / RAY
  }

  function SharesSeized(p: Position, r: Reserve, z: Seizure): int
    requires r.exchangeRate != 0
  {
    var n := z.collateral * RAY / r.exchangeRate;
    if n > p.supplyShares then p.supplyShares else n
  }

  function Executed(s: Pool, c: Config, liquidator: Address, borrower: Address, a: Address, z: Seizure): Pool
    requires a in s.reserves && (borrower, a) in s.positions && s.reserves[a].exchangeRate != 0
  {
    var r, p, fee := s.reserves[a], s.positions[(borrower, a)], ProtocolFeeOn(z, c);
    var left := p.borrowAmount - z.debt;
    s.(balance := Transferred(Transferred(s.balance, liquidator, POOL, z.debt), POOL, liquidator, z.collateral - fee),
       positions := s.positions[(borrower, a) :=
         p.(supplyShares := p.supplyShares - SharesSeized(p, r, z), borrowAmount := if left < 0 then 0 else left)],
       reserves := s.reserves[a := r.(totalReserves := r.totalReserves + fee,
                                      totalSupply := r.totalSupply - z.collateral,
                                      totalBorrows := r.totalBorrows - z.debt)],
       fees := s.fees + fee)
  }

  function Liquidated(s: Pool, c: Config, liquidator: Address, borrower: Address, a: Address, asked: int): Outcome
    requires a in s.reserves ==> RAY + s.reserves[a].liquidationBonus > 0 && s.reserves[a].exchangeRate != 0
  {
    if a !in s.reserves then Outcome(s, Err(ReserveNotFound))
    else if (borrower, a) !in s.positions || s.positions[(borrower, a)].borrowAmount == 0 then
      Outcome(s, Err(NoDebtToRepay))
    else
      var r, p := s.reserves[a], s.positions[(borrower, a)];
      if RecordedHealth(p, r) >= c.threshold then Outcome(s, Err(PositionHealthy))
      else match SeizureFor(p, r, c, asked)
        case Err(e) => Outcome(s, Err(e))
        case Ok(z) => Outcome(Executed(s, c, liquidator, borrower, a, z), Ok(z.debt))
  }
}

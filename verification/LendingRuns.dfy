/** The lending promises over whole runs of pool and liquidator operations. */
module LendingRuns {
  import opened Bytes
  import opened InterestRate
  import opened LendingInvariant
  import opened LendingState
  import opened Rounding
  import opened Sums
  import opened Wrappers

  datatype Step =
    | Initialize(asset: Address, factor: int, bonus: int, model: Option<RateModel>)
    | SetActive(asset: Address, active: bool)
    | SetBorrowCap(asset: Address, cap: int)
    | Supply(user: Address, asset: Address, amount: int)
    | Withdraw(user: Address, asset: Address, shares: int)
    | Borrow(user: Address, asset: Address, amount: int)
    | Repay(user: Address, asset: Address, amount: int)
    | Liquidate(config: Config, user: Address, borrower: Address, asset: Address, amount: int)

  /** Block numbers fit an int64, the pool does not call itself, and administrators configure a bonus
      above -100% and a sound rate model. Amounts are any integers. */
  predicate Callable(s: Pool, block: nat, t: Step) {
    && block < TWO63
    && match t
       case Initialize(_, _, bonus, m) => bonus > -RAY && (m.Some? ==> Sound(m.value))
       case Supply(user, _, _) => user != POOL
       case Withdraw(user, _, _) => user != POOL
       case Borrow(user, _, _) => user != POOL
       case Repay(user, _, _) => user != POOL
       case Liquidate(c, user, _, _, _) => ConfigSound(c) && user != POOL
       case _ => true
  }

  ghost function Apply(s: Pool, block: nat, t: Step): Outcome
    requires Inv(s) && Callable(s, block, t)
  {
    match t
    case Initialize(a, factor, bonus, m) => Initialized(s, a, factor, bonus, m, block)
    case SetActive(a, active) => ActiveSet(s, a, active)
    case SetBorrowCap(a, cap) => BorrowCapSet(s, a, cap)
    case Supply(user, a, amount) =>
      if a in s.reserves then AccruedSound(s, a, block); Supplied(s, block, user, a, amount)
      else Supplied(s, block, user, a, amount)
    case Withdraw(user, a, shares) => Withdrawn(s, block, user, a, shares)
    case Borrow(user, a, amount) => Borrowed(s, block, user, a, amount)
    case Repay(user, a, amount) => Repaid(s, block, user, a, amount)
    case Liquidate(c, user, borrower, a, amount) => Liquidated(s, c, user, borrower, a, amount)
  }

  // ----- solvency, operation by operation -----

  lemma InitializeKeepsInv(s: Pool, a: Address, factor: int, bonus: int, m: Option<RateModel>, block: nat)
    requires Inv(s) && block < TWO63 && bonus > -RAY && (m.Some? ==> Sound(m.value))
    ensures Inv(Initialized(s, a, factor, bonus, m, block).pool)
  {
    if a !in s.reserves && factor <= RAY {
      var s' := Initialized(s, a, factor, bonus, m, block).pool;
      forall b | b in s'.reserves
        ensures Solvent(s', b)
      {
        if b == a {
          NobodyOwes(s', a);
        } else {
          assert Solvent(s, b);
        }
      }
    }
  }

  lemma NobodyOwes(s: Pool, a: Address)
    requires a in s.reserves && forall k :: k in s.positions ==> k.1 != a
    ensures Owed(s, a) == 0.0
  {
    var w := DebtWeight(a, s.reserves[a].borrowIndex);
    AllZero(s.positions, w);
  }

  lemma {:induction false} AllZero<K, V>(m: map<K, V>, w: (K, V) -> real)
    requires forall k :: k in m ==> w(k, m[k]) == 0.0
    ensures SumReal(m, w) == 0.0
    decreases |m|
  {
    if m != map[] {
      var k :| k in m && SumReal(m, w) == w(k, m[k]) + SumReal(m - {k}, w);
      assert (m - {k}).Keys == m.Keys - {k} && |m.Keys - {k}| < |m.Keys|;
      AllZero(m - {k}, w);
    }
  }

  /** Changing a reserve's switches and caps changes no debt. */
  lemma SwitchKeepsInv(s: Pool, a: Address, r': Reserve)
    requires Inv(s) && a in s.reserves && ReserveSound(r')
    requires r'.borrowIndex == s.reserves[a].borrowIndex && r'.totalBorrows == s.reserves[a].totalBorrows
    ensures Inv(s.(reserves := s.reserves[a := r']))
  {
    var s' := s.(reserves := s.reserves[a := r']);
    forall b | b in s'.reserves
      ensures Solvent(s', b)
    {
      assert Solvent(s, b);
    }
  }

  /** Moving shares and supply moves no debt. */
  lemma SharesMove(s: Pool, s': Pool, k: (Address, Address), p': Position)
    requires Inv(s) && k.1 in s.reserves && s'.reserves.Keys == s.reserves.Keys && s'.models == s.models
    requires s'.positions == s.positions[k := p'] && p'.supplyShares >= 0
    requires if k in s.positions then p' == s.positions[k].(supplyShares := p'.supplyShares)
             else p'.borrowAmount == 0 && p'.borrowIndex == s.reserves[k.1].borrowIndex
    requires s'.reserves == s.reserves[k.1 := s.reserves[k.1].(totalSupply := s'.reserves[k.1].totalSupply)]
    ensures Inv(s')
  {
    SameDebt(p', if k in s.positions then s.positions[k] else p', s.reserves[k.1].borrowIndex);
    DebtMoves(s, s', k, p', 0);
  }

  lemma SameDebt(p: Position, q: Position, index: int)
    requires p.borrowIndex > 0 && p.borrowIndex == q.borrowIndex && p.borrowAmount == q.borrowAmount
    ensures Debt(p, index) == Debt(q, index)
    ensures p.borrowAmount == 0 ==> Debt(p, index) == 0.0
  {
    if p.borrowAmount == 0 {
      ZeroQuotient(index as real, p.borrowIndex as real);
    }
  }

  lemma ZeroQuotient(i: real, d: real)
    requires d > 0.0
    ensures 0.0 * i / d == 0.0
  {
  }

  /** A debt standing at the current index may change by `x` when the total changes with it. */
  lemma IndebtKeepsInv(s: Pool, user: Address, a: Address, x: int)
    requires Inv(s) && a in s.reserves && (user, a) in s.positions
    requires var p := s.positions[(user, a)];
             (p.borrowAmount == 0 || p.borrowIndex == s.reserves[a].borrowIndex) && p.borrowAmount + x >= 0
    ensures Inv(Indebted(s, user, a, x))
  {
    var s' := Indebted(s, user, a, x);
    var p, r, p' := s.positions[(user, a)], s.reserves[a], s'.positions[(user, a)];
    SameDebt(p, p, r.borrowIndex);
    if p.borrowAmount != 0 {
      DebtAtOwnIndex(p);
    }
    DebtAtOwnIndex(p');
    OneDebtCovered(s, user, a);
    DebtMoves(s, s', (user, a), p', x);
  }

  /** Balances and history carry no debt. */
  lemma BalanceKeepsInv(s: Pool, b: map<Address, int>)
    requires Inv(s)
    ensures Inv(s.(balance := b))
  {
    forall a | a in s.reserves
      ensures Solvent(s.(balance := b), a)
    {
      assert Solvent(s, a);
    }
  }

  /** A debt recorded at an older index is cut by `x`, and the total by `x`. */
  lemma DebtCut(s: Pool, s': Pool, k: (Address, Address), p': Position, x: int)
    requires Inv(s) && k in s.positions && s'.models == s.models
    requires var p, r := s.positions[k], s.reserves[k.1];
             && 0 <= x <= p.borrowAmount && p'.borrowAmount == p.borrowAmount - x && p'.borrowIndex == p.borrowIndex
             && p'.supplyShares >= 0 && s'.positions == s.positions[k := p']
             && s'.reserves.Keys == s.reserves.Keys
             && (forall b :: b in s.reserves && b != k.1 ==> s'.reserves[b] == s.reserves[b])
             && ReserveSound(s'.reserves[k.1].(totalBorrows := 0))
             && s'.reserves[k.1].borrowIndex == r.borrowIndex && s'.reserves[k.1].totalBorrows == r.totalBorrows - x
    ensures Inv(s')
  {
    var p, r := s.positions[k], s.reserves[k.1];
    DebtDrops(p, r.borrowIndex, x);
    SameDebt(p', p.(borrowAmount := p.borrowAmount - x), r.borrowIndex);
    OneDebtCovered(s, k.0, k.1);
    DebtMoves(s, s', k, p', -x);
  }

  lemma DebtDrops(p: Position, index: int, x: int)
    requires 0 <= x <= p.borrowAmount && 0 < p.borrowIndex <= index
    ensures Debt(p.(borrowAmount := p.borrowAmount - x), index) <= Debt(p, index) - x as real
  {
    DebtAtLeastRecorded(p.(borrowAmount := x), index);
    var b, i, j := p.borrowAmount as real, index as real, p.borrowIndex as real;
    QuotientAdd(b - x as real, x as real, i, j);
  }

  lemma SupplyNowKeepsInv(s: Pool, user: Address, a: Address, amount: int)
    requires Inv(s) && a in s.reserves && amount >= 0
    ensures Inv(SupplyNow(s, user, a, amount).pool)
  {
    var s' := SupplyNow(s, user, a, amount).pool;
    DivNonNegative(amount * RAY, s.reserves[a].exchangeRate);
    SharesMove(s, s', (user, a), s'.positions[(user, a)]);
  }

  lemma SupplyKeepsInv(s: Pool, block: nat, user: Address, a: Address, amount: int)
    requires Inv(s) && block < TWO63
    requires a in s.reserves ==> AccruePool(s, a, block).reserves[a].exchangeRate != 0
    ensures Inv(Supplied(s, block, user, a, amount).pool)
  {
    if SupplyGuard(s, a, amount).None? {
      AccrueKeepsInv(s, a, block);
      SupplyNowKeepsInv(AccruePool(s, a, block), user, a, amount);
    }
  }

  lemma WithdrawNowKeepsInv(s: Pool, user: Address, a: Address, shares: int)
    requires Inv(s) && a in s.reserves && (user, a) in s.positions
    ensures Inv(WithdrawNow(s, user, a, shares).pool)
  {
    hide Transferred, HealthFactor, Debt, DebtAt, Owed;
    var o := WithdrawNow(s, user, a, shares);
    if o.result.Ok? {
      SharesMove(s, o.pool, (user, a), o.pool.positions[(user, a)]);
    }
  }

  lemma WithdrawKeepsInv(s: Pool, block: nat, user: Address, a: Address, shares: int)
    requires Inv(s) && block < TWO63
    ensures Inv(Withdrawn(s, block, user, a, shares).pool)
  {
    if WithdrawGuard(s, user, a).None? {
      AccrueKeepsInv(s, a, block);
      WithdrawNowKeepsInv(AccruePool(s, a, block), user, a, shares);
    }
  }

  /** The position's debt stands at its reserve's index. */
  predicate Current(s: Pool, user: Address, a: Address)
    requires a in s.reserves && (user, a) in s.positions
  {
    var p := s.positions[(user, a)];
    p.borrowAmount == 0 || p.borrowIndex == s.reserves[a].borrowIndex
  }

  lemma RebaseMakesCurrent(s: Pool, user: Address, a: Address)
    requires Inv(s) && a in s.reserves && (user, a) in s.positions
    ensures Inv(RebasePool(s, user, a)) && Current(RebasePool(s, user, a), user, a)
  {
    RebaseKeepsInv(s, user, a);
    RebasedDebt(s.positions[(user, a)], s.reserves[a]);
  }

  lemma BorrowNowKeepsInv(s: Pool, user: Address, a: Address, amount: int)
    requires Inv(s) && a in s.reserves && (user, a) in s.positions && Current(s, user, a) && amount >= 0
    ensures Inv(BorrowNow(s, user, a, amount).pool)
  {
    hide Transferred, HealthFactor, Debt, DebtAt, Owed;
    var o := BorrowNow(s, user, a, amount);
    if o.result.Ok? {
      IndebtKeepsInv(s, user, a, amount);
      BalanceKeepsInv(Indebted(s, user, a, amount), o.pool.balance);
    }
  }

  lemma BorrowKeepsInv(s: Pool, block: nat, user: Address, a: Address, amount: int)
    requires Inv(s) && block < TWO63
    ensures Inv(Borrowed(s, block, user, a, amount).pool)
  {
    if BorrowGuard(s, a, amount).None? {
      var s1 := AccruePool(s, a, block);
      AccrueKeepsInv(s, a, block);
      if (user, a) in s1.positions {
        RebaseMakesCurrent(s1, user, a);
        BorrowNowKeepsInv(RebasePool(s1, user, a), user, a, amount);
      }
    }
  }

  lemma IndebtedAndPaid(s: Pool, user: Address, a: Address, x: int, b: map<Address, int>)
    requires Inv(s) && a in s.reserves && (user, a) in s.positions && Current(s, user, a)
    requires s.positions[(user, a)].borrowAmount + x >= 0
    ensures Inv(Indebted(s, user, a, x).(balance := b))
  {
    IndebtKeepsInv(s, user, a, x);
    BalanceKeepsInv(Indebted(s, user, a, x), b);
  }

  /** A repayment takes at most the debt off the debt. */
  lemma RepaymentIs(s: Pool, user: Address, a: Address, amount: int) returns (x: int)
    requires a in s.reserves && (user, a) in s.positions && s.positions[(user, a)].borrowAmount >= 0
    ensures s.positions[(user, a)].borrowAmount + x >= 0
    ensures RepayNow(s, user, a, amount).pool
            == Indebted(s, user, a, x).(balance := RepayNow(s, user, a, amount).pool.balance)
  {
    var p := s.positions[(user, a)];
    x := if amount > p.borrowAmount then -p.borrowAmount else -amount;
  }

  lemma RepayNowKeepsInv(s: Pool, user: Address, a: Address, amount: int)
    requires Inv(s) && a in s.reserves && (user, a) in s.positions && Current(s, user, a)
    ensures Inv(RepayNow(s, user, a, amount).pool)
  {
    var x := RepaymentIs(s, user, a, amount);
    IndebtedAndPaid(s, user, a, x, RepayNow(s, user, a, amount).pool.balance);
  }

  lemma RepayKeepsInv(s: Pool, block: nat, user: Address, a: Address, amount: int)
    requires Inv(s) && block < TWO63
    ensures Inv(Repaid(s, block, user, a, amount).pool)
  {
    if RepayGuard(s, user, a).None? {
      AccrueKeepsInv(s, a, block);
      RebaseMakesCurrent(AccruePool(s, a, block), user, a);
      RepayNowKeepsInv(RebasePool(AccruePool(s, a, block), user, a), user, a, amount);
    }
  }

  // ----- liquidation -----

  /** Collateral for `debt` with a bonus above -100% is never negative. */
  lemma BonusAboveLoss(debt: int, bonus: int)
    requires debt >= 0 && bonus >= -RAY
    ensures debt + debt * bonus / RAY >= 0
  {
    MulMono(-RAY, bonus, debt);
    FloorAtLeast(debt * bonus, RAY, -debt);
  }

  /** Collateral cut to what is there pays back less debt. */
  lemma CutPaysLess(value: int, debt: int, bonus: int)
    requires 0 <= value < debt + debt * bonus / RAY && bonus > -RAY
    ensures 0 <= value * RAY / (RAY + bonus) <= debt
  {
    var scale := RAY + bonus;
    FloorAtLeast(debt * bonus, RAY, debt * bonus / RAY);
    DivNonNegative(value * RAY, scale);
    assert value * RAY <= (debt + debt * bonus / RAY) * RAY <= debt * scale;
    FloorAtLeast(value * RAY, scale, debt + 1);
  }

  /** The liquidator repays between nothing and what was asked, never more than the recorded debt. */
  lemma SeizureWithinDebt(p: Position, r: Reserve, c: Config, asked: int)
    requires PositionSound(p, r) && ReserveSound(r) && ConfigSound(c)
    ensures var z := SeizureFor(p, r, c, asked);
            z.Ok? ==>
              && 0 <= z.value.debt <= p.borrowAmount * c.closeFactor / RAY <= p.borrowAmount && z.value.debt <= asked
              && 0 <= z.value.collateral <= SupplyValue(p, r)
  {
    ScaledDown(p.borrowAmount, c.closeFactor);
    var maxDebt := p.borrowAmount * c.closeFactor / RAY;
    var debt := if asked > maxDebt then maxDebt else asked;
    if debt >= c.minLiquidation {
      var value := SupplyValue(p, r);
      BonusAboveLoss(debt, r.liquidationBonus);
      DivNonNegative(p.supplyShares * r.exchangeRate, RAY);
      if debt + debt * r.liquidationBonus / RAY > value {
        CutPaysLess(value, debt, r.liquidationBonus);
      }
    }
  }

  lemma LiquidateKeepsInv(s: Pool, c: Config, user: Address, borrower: Address, a: Address, asked: int)
    requires Inv(s) && ConfigSound(c)
    ensures Inv(Liquidated(s, c, user, borrower, a, asked).pool)
  {
    hide Transferred, HealthFactor, Debt, DebtAt, Owed;
    var o := Liquidated(s, c, user, borrower, a, asked);
    if o.result.Ok? {
      var r, p := s.reserves[a], s.positions[(borrower, a)];
      SeizureWithinDebt(p, r, c, asked);
      DebtCut(s, o.pool, (borrower, a), o.pool.positions[(borrower, a)], o.result.value);
    }
  }

  /** Every operation, whatever it returns, keeps the pool solvent and every total borrows non-negative. */
  lemma StepKeepsInv(s: Pool, block: nat, t: Step)
    requires Inv(s) && Callable(s, block, t)
    ensures Inv(Apply(s, block, t).pool)
  {
    match t
    case Initialize(a, factor, bonus, m) => InitializeKeepsInv(s, a, factor, bonus, m, block);
    case SetActive(a, active) =>
      if a in s.reserves {
        SwitchKeepsInv(s, a, s.reserves[a].(isActive := active));
      }
    case SetBorrowCap(a, cap) =>
      if a in s.reserves {
        SwitchKeepsInv(s, a, s.reserves[a].(borrowCap := cap));
      }
    case Supply(user, a, amount) =>
      if a in s.reserves {
        AccruedSound(s, a, block);
      }
      SupplyKeepsInv(s, block, user, a, amount);
    case Withdraw(user, a, shares) => WithdrawKeepsInv(s, block, user, a, shares);
    case Borrow(user, a, amount) => BorrowKeepsInv(s, block, user, a, amount);
    case Repay(user, a, amount) => RepayKeepsInv(s, block, user, a, amount);
    case Liquidate(c, user, borrower, a, amount) => LiquidateKeepsInv(s, c, user, borrower, a, amount);
  }

  // ----- what one call undoes -----

  lemma MintedIsWorth(amount: int, rate: int)
    requires amount > 0 && rate > 0
    ensures 0 <= amount * RAY / rate * rate / RAY <= amount
  {
    var tokens := amount * RAY / rate;
    FloorAtLeast(amount * RAY, rate, tokens);
    FloorAtLeast(tokens * rate, RAY, amount + 1);
    DivNonNegative(amount * RAY, rate);
    MulMono(0, tokens, rate);
    DivNonNegative(tokens * rate, RAY);
  }

  /** Withdrawing at the same index the shares a supply minted pays back at most what was supplied. */
  lemma SupplyThenWithdraw(s: Pool, user: Address, a: Address, amount: int)
    requires Inv(s) && a in s.reserves && amount > 0
    ensures var o := SupplyNow(s, user, a, amount);
            (user, a) in o.pool.positions
            && var back := WithdrawNow(o.pool, user, a, o.result.value);
               back.result.Ok? ==> 0 <= back.result.value <= amount
                                   && back.pool.positions[(user, a)].supplyShares
                                      == if (user, a) in s.positions then s.positions[(user, a)].supplyShares else 0
  {
    assert ReserveSound(s.reserves[a]);
    MintedIsWorth(amount, s.reserves[a].exchangeRate);
    if (user, a) in s.positions {
      assert PositionSound(s.positions[(user, a)], s.reserves[a]);
    }
  }

  /** Repaying at the same index what was just borrowed restores the debt and the totals exactly. */
  lemma BorrowThenRepay(s: Pool, user: Address, a: Address, amount: int)
    requires Inv(s) && a in s.reserves && (user, a) in s.positions && amount > 0
    requires BorrowNow(s, user, a, amount).result.Ok?
    ensures var o := RepayNow(BorrowNow(s, user, a, amount).pool, user, a, amount);
            && o.result == Ok(amount) && o.pool.reserves[a] == s.reserves[a]
            && o.pool.positions[(user, a)] == s.positions[(user, a)].(borrowIndex := s.reserves[a].borrowIndex)
  {
    assert PositionSound(s.positions[(user, a)], s.reserves[a]);
  }

  // ----- conservation -----

  ghost function BookWeight(): (Address, Reserve) -> int {
    (a: Address, r: Reserve) => r.totalBorrows - r.totalSupply
  }

  /** Pool balance + TotalBorrows - TotalSupply - interest - fees, over all reserves. */
  ghost function Residue(s: Pool): int {
    BalanceOf(s.balance, POOL) + SumMap(s.reserves, BookWeight()) - s.interest - s.fees
  }

  lemma ModShift(x: int, y: int, z: int)
    requires x % U256 == y % U256
    ensures (x + z) % U256 == (y + z) % U256
  {
    var k := x / U256 - y / U256;
    assert x == y + k * U256;
    ModPeriod(y + z, k);
  }

  lemma ModPeriod(x: int, k: int)
    ensures (x + k * U256) % U256 == x % U256
  {
    var q := x / U256;
    assert x + k * U256 == (q + k) * U256 + x % U256;
  }

  /** An unchecked transfer moves the pool's balance by its amount, modulo 2^256. */
  lemma PoolReceives(b: map<Address, int>, from: Address, amount: int)
    requires from != POOL
    ensures BalanceOf(Transferred(b, from, POOL, amount), POOL) % U256 == (BalanceOf(b, POOL) + amount) % U256
  {
    ModPeriod(BalanceOf(b, POOL) + amount % U256, amount / U256);
  }

  lemma PoolPays(b: map<Address, int>, to: Address, amount: int)
    requires to != POOL
    ensures BalanceOf(Transferred(b, POOL, to, amount), POOL) % U256 == (BalanceOf(b, POOL) - amount) % U256
  {
    ModPeriod(BalanceOf(b, POOL) - amount % U256, -(amount / U256));
  }

  lemma ReserveMoves(s: Pool, a: Address, r': Reserve)
    requires a in s.reserves
    ensures SumMap(s.reserves[a := r'], BookWeight()) - SumMap(s.reserves, BookWeight())
            == (r'.totalBorrows - r'.totalSupply) - (s.reserves[a].totalBorrows - s.reserves[a].totalSupply)
  {
    SumMapInsert(s.reserves, BookWeight(), a, r');
  }

  lemma AccrueConserves(s: Pool, a: Address, block: nat)
    requires a in s.reserves
    ensures Residue(AccruePool(s, a, block)) == Residue(s)
  {
    ReserveMoves(s, a, Accrued(s.reserves[a], ModelOf(s, a), block));
  }

  lemma BooksFollowBalance(s: Pool, s': Pool, moved: int)
    requires BalanceOf(s'.balance, POOL) % U256 == (BalanceOf(s.balance, POOL) + moved) % U256
    requires SumMap(s'.reserves, BookWeight()) - SumMap(s.reserves, BookWeight())
             == s'.interest - s.interest + s'.fees - s.fees - moved
    ensures Residue(s') % U256 == Residue(s) % U256
  {
    ModShift(BalanceOf(s'.balance, POOL), BalanceOf(s.balance, POOL) + moved,
             SumMap(s'.reserves, BookWeight()) - s'.interest - s'.fees);
  }

  lemma SupplyConserves(s: Pool, block: nat, user: Address, a: Address, amount: int)
    requires user != POOL && (a in s.reserves ==> AccruePool(s, a, block).reserves[a].exchangeRate != 0)
    ensures Residue(Supplied(s, block, user, a, amount).pool) % U256 == Residue(s) % U256
  {
    if SupplyGuard(s, a, amount).None? {
      AccrueConserves(s, a, block);
      SupplyNowConserves(AccruePool(s, a, block), user, a, amount);
    }
  }

  lemma SupplyNowConserves(s: Pool, user: Address, a: Address, amount: int)
    requires user != POOL && a in s.reserves && s.reserves[a].exchangeRate != 0
    ensures Residue(SupplyNow(s, user, a, amount).pool) % U256 == Residue(s) % U256
  {
    var s' := SupplyNow(s, user, a, amount).pool;
    PoolReceives(s.balance, user, amount);
    ReserveMoves(s, a, s'.reserves[a]);
    BooksFollowBalance(s, s', amount);
  }

  lemma WithdrawConserves(s: Pool, block: nat, user: Address, a: Address, shares: int)
    requires user != POOL
    ensures Residue(Withdrawn(s, block, user, a, shares).pool) % U256 == Residue(s) % U256
  {
    if WithdrawGuard(s, user, a).None? {
      AccrueConserves(s, a, block);
      WithdrawNowConserves(AccruePool(s, a, block), user, a, shares);
    }
  }

  lemma WithdrawNowConserves(s: Pool, user: Address, a: Address, shares: int)
    requires user != POOL && a in s.reserves && (user, a) in s.positions
    ensures Residue(WithdrawNow(s, user, a, shares).pool) % U256 == Residue(s) % U256
  {
    var o := WithdrawNow(s, user, a, shares);
    if o.result.Ok? {
      PoolPays(s.balance, user, o.result.value);
      ReserveMoves(s, a, o.pool.reserves[a]);
      BooksFollowBalance(s, o.pool, -o.result.value);
    }
  }

  lemma BorrowConserves(s: Pool, block: nat, user: Address, a: Address, amount: int)
    requires user != POOL
    ensures Residue(Borrowed(s, block, user, a, amount).pool) % U256 == Residue(s) % U256
  {
    if BorrowGuard(s, a, amount).None? {
      AccrueConserves(s, a, block);
      if (user, a) in s.positions {
        BorrowNowConserves(RebasePool(AccruePool(s, a, block), user, a), user, a, amount);
      }
    }
  }

  lemma BorrowNowConserves(s: Pool, user: Address, a: Address, amount: int)
    requires user != POOL && a in s.reserves && (user, a) in s.positions
    ensures Residue(BorrowNow(s, user, a, amount).pool) % U256 == Residue(s) % U256
  {
    var o := BorrowNow(s, user, a, amount);
    if o.result.Ok? {
      PoolPays(s.balance, user, amount);
      ReserveMoves(s, a, o.pool.reserves[a]);
      BooksFollowBalance(s, o.pool, -amount);
    }
  }

  lemma RepayConserves(s: Pool, block: nat, user: Address, a: Address, amount: int)
    requires user != POOL
    ensures Residue(Repaid(s, block, user, a, amount).pool) % U256 == Residue(s) % U256
  {
    if RepayGuard(s, user, a).None? {
      AccrueConserves(s, a, block);
      RepayNowConserves(RebasePool(AccruePool(s, a, block), user, a), user, a, amount);
    }
  }

  lemma RepayNowConserves(s: Pool, user: Address, a: Address, amount: int)
    requires user != POOL && a in s.reserves && (user, a) in s.positions
    ensures Residue(RepayNow(s, user, a, amount).pool) % U256 == Residue(s) % U256
  {
    var o := RepayNow(s, user, a, amount);
    PoolReceives(s.balance, user, o.result.value);
    ReserveMoves(s, a, o.pool.reserves[a]);
    BooksFollowBalance(s, o.pool, o.result.value);
  }

  lemma LiquidateConserves(s: Pool, c: Config, user: Address, borrower: Address, a: Address, asked: int)
    requires Inv(s) && user != POOL
    ensures Residue(Liquidated(s, c, user, borrower, a, asked).pool) % U256 == Residue(s) % U256
  {
    var o := Liquidated(s, c, user, borrower, a, asked);
    if o.result.Ok? {
      ExecutionConserves(s, c, user, borrower, a, SeizureFor(s.positions[(borrower, a)], s.reserves[a], c, asked).value);
    }
  }

  lemma ExecutionConserves(s: Pool, c: Config, user: Address, borrower: Address, a: Address, z: Seizure)
    requires user != POOL && a in s.reserves && (borrower, a) in s.positions && s.reserves[a].exchangeRate != 0
    ensures Residue(Executed(s, c, user, borrower, a, z)) % U256 == Residue(s) % U256
  {
    var s', fee := Executed(s, c, user, borrower, a, z), ProtocolFeeOn(z, c);
    var paid := Transferred(s.balance, user, POOL, z.debt);
    PoolReceives(s.balance, user, z.debt);
    PoolPays(paid, user, z.collateral - fee);
    ModShift(BalanceOf(paid, POOL), BalanceOf(s.balance, POOL) + z.debt, fee - z.collateral);
    ReserveMoves(s, a, s'.reserves[a]);
    BooksFollowBalance(s, s', z.debt - z.collateral + fee);
  }

  /** Pool balance + TotalBorrows = TotalSupply + all interest + all liquidation fees, kept by every
      operation, in the 256-bit arithmetic of the balances. */
  lemma StepConserves(s: Pool, block: nat, t: Step)
    requires Inv(s) && Callable(s, block, t)
    ensures Residue(Apply(s, block, t).pool) % U256 == Residue(s) % U256
  {
    hide Residue, Solvent, Shaped;
    match t
    case Initialize(a, factor, bonus, m) => InitializeConserves(s, a, factor, bonus, m, block);
    case SetActive(a, active) => SwitchConserves(s, a, ActiveSet(s, a, active).pool);
    case SetBorrowCap(a, cap) => SwitchConserves(s, a, BorrowCapSet(s, a, cap).pool);
    case Supply(user, a, amount) =>
      if a in s.reserves {
        AccruedSound(s, a, block);
      }
      SupplyConserves(s, block, user, a, amount);
    case Withdraw(user, a, shares) => WithdrawConserves(s, block, user, a, shares);
    case Borrow(user, a, amount) => BorrowConserves(s, block, user, a, amount);
    case Repay(user, a, amount) => RepayConserves(s, block, user, a, amount);
    case Liquidate(c, user, borrower, a, amount) => LiquidateConserves(s, c, user, borrower, a, amount);
  }

  lemma InitializeConserves(s: Pool, a: Address, factor: int, bonus: int, m: Option<RateModel>, block: nat)
    ensures Residue(Initialized(s, a, factor, bonus, m, block).pool) == Residue(s)
  {
    if a !in s.reserves && factor <= RAY {
      SumMapInsert(s.reserves, BookWeight(), a, Initialized(s, a, factor, bonus, m, block).pool.reserves[a]);
    }
  }

  /** Switches and caps are in no book. */
  lemma SwitchConserves(s: Pool, a: Address, s': Pool)
    requires a !in s.reserves ==> s' == s
    requires a in s.reserves ==> (
               && a in s'.reserves && s' == s.(reserves := s.reserves[a := s'.reserves[a]])
               && s'.reserves[a].totalBorrows == s.reserves[a].totalBorrows
               && s'.reserves[a].totalSupply == s.reserves[a].totalSupply)
    ensures Residue(s') == Residue(s)
  {
    if a in s.reserves {
      ReserveMoves(s, a, s'.reserves[a]);
    }
  }

  // ----- health -----

  lemma HealthyWithin(room: int, debt: int)
    requires 0 < debt <= room
    ensures room * RAY / debt >= RAY
  {
    MulMono(debt, room, RAY);
    FloorAtLeast(room * RAY, debt, RAY);
  }

  /** A position within its borrowing limit is healthy. */
  lemma WithinLimitIsHealthy(p: Position, r: Reserve)
    requires p.borrowAmount <= MaxBorrow(p, r) && p.borrowAmount >= 0
    ensures RecordedHealth(p, r) >= RAY
  {
    if p.borrowAmount > 0 {
      HealthyWithin(MaxBorrow(p, r), p.borrowAmount);
    }
  }

  lemma BorrowNowLeavesHealthy(s: Pool, user: Address, a: Address, amount: int)
    requires Inv(s) && a in s.reserves && (user, a) in s.positions && amount > 0
    requires BorrowNow(s, user, a, amount).result.Ok?
    ensures var s' := BorrowNow(s, user, a, amount).pool;
            && (user, a) in s'.positions && s'.positions[(user, a)].borrowAmount > 0
            && RecordedHealth(s'.positions[(user, a)], s'.reserves[a]) >= RAY
  {
    var s' := BorrowNow(s, user, a, amount).pool;
    WithinLimitIsHealthy(s'.positions[(user, a)], s'.reserves[a]);
  }

  /** The liquidator refuses an indebted position whose recorded health reaches its threshold. */
  lemma HealthyIsRefused(s: Pool, c: Config, liquidator: Address, borrower: Address, a: Address, asked: int)
    requires a in s.reserves && ReserveSound(s.reserves[a]) && (borrower, a) in s.positions
    requires s.positions[(borrower, a)].borrowAmount > 0
    requires RecordedHealth(s.positions[(borrower, a)], s.reserves[a]) >= c.threshold
    ensures Liquidated(s, c, liquidator, borrower, a, asked).result == Err(PositionHealthy)
  {
  }

  /** A successful Borrow acts on the position at the current index. */
  lemma BorrowedIsNow(s: Pool, block: nat, user: Address, a: Address, amount: int)
    requires Borrowed(s, block, user, a, amount).result.Ok?
    ensures amount > 0 && a in s.reserves && (user, a) in s.positions
    ensures Borrowed(s, block, user, a, amount)
            == BorrowNow(RebasePool(AccruePool(s, a, block), user, a), user, a, amount)
  {
  }

  /** A successful Borrow leaves the position healthy: at the same indices a liquidator whose threshold is at
      most 1 refuses it. */
  lemma BorrowLeavesHealthy(s: Pool, block: nat, user: Address, a: Address, amount: int,
                            c: Config, liquidator: Address, asked: int)
    requires Inv(s) && block < TWO63 && c.threshold <= RAY
    requires Borrowed(s, block, user, a, amount).result.Ok?
    ensures Inv(Borrowed(s, block, user, a, amount).pool)
    ensures Liquidated(Borrowed(s, block, user, a, amount).pool, c, liquidator, user, a, asked).result
            == Err(PositionHealthy)
  {
    BorrowKeepsInv(s, block, user, a, amount);
    BorrowedIsNow(s, block, user, a, amount);
    AccrueKeepsInv(s, a, block);
    var s1 := AccruePool(s, a, block);
    RebaseMakesCurrent(s1, user, a);
    BorrowNowLeavesHealthy(RebasePool(s1, user, a), user, a, amount);
    HealthyIsRefused(Borrowed(s, block, user, a, amount).pool, c, liquidator, user, a, asked);
  }

  /** A successful Withdraw by a borrower leaves the recorded debt healthy. */
  lemma WithdrawLeavesRecordedHealth(s: Pool, block: nat, user: Address, a: Address, shares: int)
    requires Inv(s) && Withdrawn(s, block, user, a, shares).result.Ok?
    ensures var s' := Withdrawn(s, block, user, a, shares).pool;
            RecordedHealth(s'.positions[(user, a)], s'.reserves[a]) >= RAY
  {
    WithdrawNowLeavesHealth(AccruePool(s, a, block), user, a, shares);
  }

  lemma WithdrawNowLeavesHealth(s: Pool, user: Address, a: Address, shares: int)
    requires a in s.reserves && (user, a) in s.positions && s.positions[(user, a)].borrowAmount >= 0
    requires WithdrawNow(s, user, a, shares).result.Ok?
    ensures var s' := WithdrawNow(s, user, a, shares).pool;
            RecordedHealth(s'.positions[(user, a)], s'.reserves[a]) >= RAY
  {
  }

  // ----- runs -----

  ghost predicate Fresh(s: Pool) {
    s.reserves == map[] && s.positions == map[] && s.models == map[] && s.interest == 0 && s.fees == 0
  }

  /** A run from an empty pool: each state is what the operation at that block makes of the one before. */
  ghost predicate IsRun(ss: seq<Pool>, blocks: seq<nat>, ts: seq<Step>) {
    && |ss| == |ts| + 1 && |blocks| == |ts| && Fresh(ss[0])
    && forall i :: 0 <= i < |ts| ==>
         Callable(ss[i], blocks[i], ts[i]) && (Inv(ss[i]) ==> ss[i + 1] == Apply(ss[i], blocks[i], ts[i]).pool)
  }

  lemma {:induction false} RunInv(ss: seq<Pool>, blocks: seq<nat>, ts: seq<Step>, n: nat)
    requires IsRun(ss, blocks, ts) && n < |ss|
    ensures Inv(ss[n])
    ensures Residue(ss[n]) % U256 == BalanceOf(ss[0].balance, POOL) % U256
  {
    if n > 0 {
      RunInv(ss, blocks, ts, n - 1);
      StepKeepsInv(ss[n - 1], blocks[n - 1], ts[n - 1]);
      StepConserves(ss[n - 1], blocks[n - 1], ts[n - 1]);
    }
  }

  /** In every reachable state what users owe, each debt scaled by the exact index ratio, is at most the
      reserve's total borrows, which is therefore never negative. */
  lemma DebtsAreCovered(ss: seq<Pool>, blocks: seq<nat>, ts: seq<Step>, n: nat, a: Address)
    requires IsRun(ss, blocks, ts) && n < |ss| && a in ss[n].reserves
    ensures 0.0 <= Owed(ss[n], a) <= ss[n].reserves[a].totalBorrows as real
  {
    RunInv(ss, blocks, ts, n);
    OwedNonNegative(ss[n], a);
    assert Solvent(ss[n], a);
  }

  /** In every reachable state the pool's 256-bit balance is what it started with, plus supplies, interest
      and fees, less what is lent out. */
  lemma ValueIsConserved(ss: seq<Pool>, blocks: seq<nat>, ts: seq<Step>, n: nat)
    requires IsRun(ss, blocks, ts) && n < |ss| && BalanceOf(ss[0].balance, POOL) == 0
    ensures (BalanceOf(ss[n].balance, POOL) + SumMap(ss[n].reserves, BookWeight())) % U256
            == (ss[n].interest + ss[n].fees) % U256
  {
    RunInv(ss, blocks, ts, n);
    ModShift(Residue(ss[n]), 0, ss[n].interest + ss[n].fees);
  }

  predicate PoolFits(b: map<Address, int>) {
    0 <= BalanceOf(b, POOL) < U256
  }

  lemma TransferFits(b: map<Address, int>, from: Address, to: Address, amount: int)
    requires PoolFits(b)
    ensures PoolFits(Transferred(b, from, to, amount))
  {
  }

  /** No operation makes the pool's balance anything but a 256-bit word. */
  lemma StepFits(s: Pool, block: nat, t: Step)
    requires Inv(s) && Callable(s, block, t) && PoolFits(s.balance)
    ensures PoolFits(Apply(s, block, t).pool.balance)
  {
    hide PoolFits, Transferred, Solvent, Shaped;
    match t
    case Supply(user, a, amount) =>
      if a in s.reserves {
        AccruedSound(s, a, block);
      }
      SupplyFits(s, block, user, a, amount);
    case Withdraw(user, a, shares) => WithdrawFits(s, block, user, a, shares);
    case Borrow(user, a, amount) => BorrowFits(s, block, user, a, amount);
    case Repay(user, a, amount) => RepayFits(s, block, user, a, amount);
    case Liquidate(c, user, borrower, a, asked) => LiquidationFits(s, c, user, borrower, a, asked);
    case _ =>
  }

  lemma SupplyFits(s: Pool, block: nat, user: Address, a: Address, amount: int)
    requires PoolFits(s.balance) && (a in s.reserves ==> AccruePool(s, a, block).reserves[a].exchangeRate != 0)
    ensures PoolFits(Supplied(s, block, user, a, amount).pool.balance)
  {
    TransferFits(s.balance, user, POOL, amount);
  }

  lemma WithdrawFits(s: Pool, block: nat, user: Address, a: Address, shares: int)
    requires PoolFits(s.balance)
    ensures PoolFits(Withdrawn(s, block, user, a, shares).pool.balance)
  {
    var o := Withdrawn(s, block, user, a, shares);
    if o.result.Ok? {
      TransferFits(s.balance, POOL, user, o.result.value);
    }
  }

  lemma BorrowFits(s: Pool, block: nat, user: Address, a: Address, amount: int)
    requires PoolFits(s.balance)
    ensures PoolFits(Borrowed(s, block, user, a, amount).pool.balance)
  {
    TransferFits(s.balance, POOL, user, amount);
  }

  lemma RepayFits(s: Pool, block: nat, user: Address, a: Address, amount: int)
    requires PoolFits(s.balance)
    ensures PoolFits(Repaid(s, block, user, a, amount).pool.balance)
  {
    var o := Repaid(s, block, user, a, amount);
    if o.result.Ok? {
      TransferFits(s.balance, user, POOL, o.result.value);
    }
  }

  lemma LiquidationFits(s: Pool, c: Config, user: Address, borrower: Address, a: Address, asked: int)
    requires Inv(s) && PoolFits(s.balance)
    ensures PoolFits(Liquidated(s, c, user, borrower, a, asked).pool.balance)
  {
    hide PoolFits, Transferred;
    var o := Liquidated(s, c, user, borrower, a, asked);
    if o.result.Ok? {
      var z := SeizureFor(s.positions[(borrower, a)], s.reserves[a], c, asked).value;
      var paid := Transferred(s.balance, user, POOL, z.debt);
      TransferFits(s.balance, user, POOL, z.debt);
      TransferFits(paid, POOL, user, z.collateral - ProtocolFeeOn(z, c));
    }
  }

  lemma {:induction false} RunFits(ss: seq<Pool>, blocks: seq<nat>, ts: seq<Step>, n: nat)
    requires IsRun(ss, blocks, ts) && n < |ss| && PoolFits(ss[0].balance)
    ensures PoolFits(ss[n].balance)
  {
    hide PoolFits;
    if n > 0 {
      RunFits(ss, blocks, ts, n - 1);
      RunInv(ss, blocks, ts, n - 1);
      StepFits(ss[n - 1], blocks[n - 1], ts[n - 1]);
    }
  }

  lemma SameWordIff(b: int, x: int)
    requires 0 <= b < U256 && b % U256 == x % U256
    ensures b == x <==> 0 <= x < U256
  {
  }

  /** In every reachable state the pool's balance is, as a number, total supply and all interest and fees less what
      is lent out, exactly when that number is one a 256-bit balance can be. */
  lemma ValueIsExactIff(ss: seq<Pool>, blocks: seq<nat>, ts: seq<Step>, n: nat)
    requires IsRun(ss, blocks, ts) && n < |ss| && BalanceOf(ss[0].balance, POOL) == 0
    ensures var due := ss[n].interest + ss[n].fees - SumMap(ss[n].reserves, BookWeight());
            BalanceOf(ss[n].balance, POOL) == due <==> 0 <= due < U256
  {
    var books := SumMap(ss[n].reserves, BookWeight());
    var due := ss[n].interest + ss[n].fees - books;
    ValueIsConserved(ss, blocks, ts, n);
    RunFits(ss, blocks, ts, n);
    ModShift(BalanceOf(ss[n].balance, POOL) + books, ss[n].interest + ss[n].fees, -books);
    SameWordIff(BalanceOf(ss[n].balance, POOL), due);
  }
}

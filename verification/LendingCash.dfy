/** The cash of a reserve, TotalSupply - TotalBorrows: which calls keep it from going negative, and runs in
    which it does. */
module LendingCash {
  import opened Bytes
  import opened InterestRate
  import opened LendingInvariant
  import opened LendingRuns
  import opened LendingState
  import opened Rounding
  import opened Sums
  import opened Wrappers

  function Cash(s: Pool, a: Address): int {
    if a in s.reserves then s.reserves[a].totalSupply - s.reserves[a].totalBorrows else 0
  }

  ghost predicate AllCash(s: Pool) {
    forall a: Address :: Cash(s, a) >= 0
  }

  /** The interest an operation on `a` at `block` first accrues. */
  function Due(s: Pool, a: Address, block: nat): int
    requires a in s.reserves
  {
    InterestDue(s.reserves[a], ModelOf(s, a), block)
  }

  /** What a repayment moves: the amount asked, at most the debt at the current index. Nothing bounds it below. */
  function RepaidAmount(s: Pool, block: nat, user: Address, a: Address, amount: int): int
    requires a in s.reserves && (user, a) in s.positions
  {
    var owed := Rebased(s.positions[(user, a)], Accrued(s.reserves[a], ModelOf(s, a), block)).borrowAmount;
    if amount > owed then owed else amount
  }

  /** The seizure a liquidation makes, if it makes one. */
  function SeizureOf(s: Pool, c: Config, borrower: Address, a: Address, asked: int): Seizure
    requires Inv(s)
  {
    if a !in s.reserves || (borrower, a) !in s.positions || s.positions[(borrower, a)].borrowAmount == 0
       || RecordedHealth(s.positions[(borrower, a)], s.reserves[a]) >= c.threshold
    then Seizure(0, 0)
    else match SeizureFor(s.positions[(borrower, a)], s.reserves[a], c, asked)
      case Err(_) => Seizure(0, 0)
      case Ok(z) => z
  }

  /** What a withdrawal of `shares` is worth at `block`; of a negative count, which nothing refuses, a negative
      amount. */
  function Underlying(s: Pool, block: nat, user: Address, a: Address, shares: int): int
    requires a in s.reserves && (user, a) in s.positions
  {
    var held := s.positions[(user, a)].supplyShares;
    (if shares > held then held else shares) * Accrued(s.reserves[a], ModelOf(s, a), block).exchangeRate / RAY
  }

  /** The withdrawal's check that the recorded debt stays healthy. */
  predicate StaysHealthy(s: Pool, block: nat, user: Address, a: Address, shares: int)
    requires a in s.reserves && (user, a) in s.positions
  {
    var p, r := s.positions[(user, a)], Accrued(s.reserves[a], ModelOf(s, a), block);
    var burned := if shares > p.supplyShares then p.supplyShares else shares;
    p.borrowAmount <= 0 || HealthFactor((p.supplyShares - burned) * r.exchangeRate / RAY, p.borrowAmount, r) >= RAY
  }

  /** The calls that keep every reserve's cash from going negative, told before the call. The interest it accrues
      must fit the cash and what the call brings; a withdrawal of a negative share count, which pays in, may also
      make up for it, if it passes its own two checks; a liquidation's bonus must fit. */
  ghost predicate KeepsCash(s: Pool, block: nat, t: Step)
    requires Inv(s) && Callable(s, block, t)
  {
    match t
    case Supply(_, a, amount) => SupplyGuard(s, a, amount).None? ==> Due(s, a, block) <= Cash(s, a) + amount
    case Withdraw(user, a, shares) =>
      WithdrawGuard(s, user, a).None? ==>
        || Due(s, a, block) <= Cash(s, a)
        || (shares < 0 && StaysHealthy(s, block, user, a, shares)
            && Underlying(s, block, user, a, shares) <= Cash(s, a) - Due(s, a, block))
    case Borrow(_, a, amount) => BorrowGuard(s, a, amount).None? ==> Due(s, a, block) <= Cash(s, a)
    case Repay(user, a, amount) =>
      RepayGuard(s, user, a).None? ==> Due(s, a, block) <= Cash(s, a) + RepaidAmount(s, block, user, a, amount)
    case Liquidate(c, _, borrower, a, asked) =>
      var z := SeizureOf(s, c, borrower, a, asked);
      z.collateral - z.debt <= Cash(s, a)
    case _ => true
  }

  // ----- what each operation does to the cash -----

  /** Interest raises what is borrowed and never what is supplied. */
  lemma AccrualCash(s: Pool, a: Address, block: nat)
    requires a in s.reserves
    ensures Cash(AccruePool(s, a, block), a) == Cash(s, a) - Due(s, a, block)
  {
  }

  /** So an accrual leaves the cash non-negative exactly when the interest fits it. */
  lemma AccrualCashIff(s: Pool, a: Address, block: nat)
    requires a in s.reserves
    ensures Cash(AccruePool(s, a, block), a) >= 0
            <==> Due(s, a, block) <= s.reserves[a].totalSupply - s.reserves[a].totalBorrows
  {
    AccrualCash(s, a, block);
  }

  lemma SupplyCash(s: Pool, block: nat, user: Address, a: Address, amount: int)
    requires Inv(s) && block < TWO63 && SupplyGuard(s, a, amount).None?
    ensures AccruePool(s, a, block).reserves[a].exchangeRate != 0
    ensures Cash(Supplied(s, block, user, a, amount).pool, a) == Cash(s, a) - Due(s, a, block) + amount
  {
    AccruedSound(s, a, block);
    AccrualCash(s, a, block);
  }

  /** A withdrawal is paid exactly when it passes both checks, and then leaves what the cash exceeds it by. */
  lemma WithdrawCash(s: Pool, block: nat, user: Address, a: Address, shares: int)
    requires WithdrawGuard(s, user, a).None?
    ensures var o, left := Withdrawn(s, block, user, a, shares), Cash(s, a) - Due(s, a, block);
            var n := Underlying(s, block, user, a, shares);
            && (o.result.Ok? <==> StaysHealthy(s, block, user, a, shares) && n <= left)
            && Cash(o.pool, a) == if o.result.Ok? then left - n else left
  {
    AccrualCash(s, a, block);
  }

  lemma SharesAreWorth(s: Pool, block: nat, user: Address, a: Address, shares: int)
    requires Inv(s) && block < TWO63 && WithdrawGuard(s, user, a).None? && shares >= 0
    ensures Underlying(s, block, user, a, shares) >= 0
  {
    AccruedSound(s, a, block);
    var p, rate := s.positions[(user, a)], Accrued(s.reserves[a], ModelOf(s, a), block).exchangeRate;
    var burned := if shares > p.supplyShares then p.supplyShares else shares;
    assert PositionSound(p, s.reserves[a]);
    MulMono(0, burned, rate);
    DivNonNegative(burned * rate, RAY);
  }

  /** A borrow that is paid leaves cash, and only interest that fits the cash lets it be paid. */
  lemma BorrowCash(s: Pool, block: nat, user: Address, a: Address, amount: int)
    requires BorrowGuard(s, a, amount).None?
    ensures var o, left := Borrowed(s, block, user, a, amount), Cash(s, a) - Due(s, a, block);
            && (o.result.Ok? ==> amount <= left && Cash(o.pool, a) == left - amount)
            && (o.result.Err? ==> Cash(o.pool, a) == left)
  {
    AccrualCash(s, a, block);
  }

  lemma RepayCash(s: Pool, block: nat, user: Address, a: Address, amount: int)
    requires RepayGuard(s, user, a).None?
    ensures Cash(Repaid(s, block, user, a, amount).pool, a)
            == Cash(s, a) - Due(s, a, block) + RepaidAmount(s, block, user, a, amount)
  {
    AccrualCash(s, a, block);
  }

  lemma LiquidateCash(s: Pool, c: Config, user: Address, borrower: Address, a: Address, asked: int)
    requires Inv(s)
    ensures var z := SeizureOf(s, c, borrower, a, asked);
            Cash(Liquidated(s, c, user, borrower, a, asked).pool, a) == Cash(s, a) - (z.collateral - z.debt)
  {
  }

  /** An operation touches no other reserve. */
  lemma OtherReserves(s: Pool, block: nat, t: Step, b: Address)
    requires Inv(s) && Callable(s, block, t) && b != t.asset
    ensures Cash(Apply(s, block, t).pool, b) == Cash(s, b)
  {
    match t
    case Borrow(user, a, amount) => BorrowElsewhere(s, block, user, a, amount, b);
    case Repay(user, a, amount) => RepayElsewhere(s, block, user, a, amount, b);
    case Withdraw(user, a, shares) => WithdrawElsewhere(s, block, user, a, shares, b);
    case Supply(user, a, amount) =>
      if a in s.reserves {
        AccruedSound(s, a, block);
      }
      SupplyElsewhere(s, block, user, a, amount, b);
    case Liquidate(c, user, borrower, a, asked) => LiquidateElsewhere(s, c, user, borrower, a, asked, b);
    case _ =>
  }

  lemma SupplyElsewhere(s: Pool, block: nat, user: Address, a: Address, amount: int, b: Address)
    requires b != a && (a in s.reserves ==> AccruePool(s, a, block).reserves[a].exchangeRate != 0)
    ensures Cash(Supplied(s, block, user, a, amount).pool, b) == Cash(s, b)
  {
  }

  lemma LiquidateElsewhere(s: Pool, c: Config, user: Address, borrower: Address, a: Address, asked: int, b: Address)
    requires b != a && Inv(s)
    ensures Cash(Liquidated(s, c, user, borrower, a, asked).pool, b) == Cash(s, b)
  {
  }

  lemma WithdrawElsewhere(s: Pool, block: nat, user: Address, a: Address, shares: int, b: Address)
    requires b != a
    ensures Cash(Withdrawn(s, block, user, a, shares).pool, b) == Cash(s, b)
  {
  }

  lemma BorrowElsewhere(s: Pool, block: nat, user: Address, a: Address, amount: int, b: Address)
    requires b != a
    ensures Cash(Borrowed(s, block, user, a, amount).pool, b) == Cash(s, b)
  {
  }

  lemma RepayElsewhere(s: Pool, block: nat, user: Address, a: Address, amount: int, b: Address)
    requires b != a
    ensures Cash(Repaid(s, block, user, a, amount).pool, b) == Cash(s, b)
  {
  }

  lemma OwnReserveIff(s: Pool, block: nat, t: Step)
    requires Inv(s) && Callable(s, block, t) && Cash(s, t.asset) >= 0
    ensures Cash(Apply(s, block, t).pool, t.asset) >= 0 <==> KeepsCash(s, block, t)
  {
    match t
    case Supply(user, a, amount) =>
      if SupplyGuard(s, a, amount).None? {
        SupplyCash(s, block, user, a, amount);
      }
    case Withdraw(user, a, shares) =>
      if WithdrawGuard(s, user, a).None? {
        WithdrawCash(s, block, user, a, shares);
        if shares >= 0 {
          SharesAreWorth(s, block, user, a, shares);
        }
      }
    case Borrow(user, a, amount) =>
      if BorrowGuard(s, a, amount).None? {
        BorrowCash(s, block, user, a, amount);
      }
    case Repay(user, a, amount) =>
      if RepayGuard(s, user, a).None? {
        RepayCash(s, block, user, a, amount);
      }
    case Liquidate(c, user, borrower, a, asked) => LiquidateCash(s, c, user, borrower, a, asked);
    case _ =>
  }

  /** From a pool no reserve of which has lent out more than it holds, any operation leaves it so if and only if
      it keeps the cash. */
  lemma StepKeepsCashIff(s: Pool, block: nat, t: Step)
    requires Inv(s) && Callable(s, block, t) && AllCash(s)
    ensures AllCash(Apply(s, block, t).pool) <==> KeepsCash(s, block, t)
  {
    assert Cash(s, t.asset) >= 0;
    OwnReserveIff(s, block, t);
    forall b: Address | b != t.asset
      ensures Cash(Apply(s, block, t).pool, b) >= 0
    {
      assert Cash(s, b) >= 0;
      OtherReserves(s, block, t, b);
    }
  }

  lemma FreshHasCash(s: Pool)
    requires Fresh(s)
    ensures AllCash(s)
  {
  }

  /** Through a whole run TotalSupply stays at or above TotalBorrows in every reserve, if and only if every
      operation keeps the cash. */
  lemma {:induction false} RunKeepsCashIff(ss: seq<Pool>, blocks: seq<nat>, ts: seq<Step>, n: nat)
    requires IsRun(ss, blocks, ts) && n < |ss|
    ensures forall i :: 0 <= i < n ==> Inv(ss[i]) && Callable(ss[i], blocks[i], ts[i])
    ensures (forall i :: 0 <= i <= n ==> AllCash(ss[i]))
            <==> (forall i :: 0 <= i < n ==> KeepsCash(ss[i], blocks[i], ts[i]))
  {
    hide Inv, Callable, KeepsCash, AllCash, Apply;
    if n == 0 {
      FreshHasCash(ss[0]);
    } else {
      RunKeepsCashIff(ss, blocks, ts, n - 1);
      RunInv(ss, blocks, ts, n - 1);
      assert ss[n] == Apply(ss[n - 1], blocks[n - 1], ts[n - 1]).pool;
      if AllCash(ss[n - 1]) {
        StepKeepsCashIff(ss[n - 1], blocks[n - 1], ts[n - 1]);
      }
    }
  }

  // ----- a run in which it fails, by accrual alone and by a liquidation alone -----

  const ASSET: Address := Zeros(20)
  const ALICE: Address := Zeros(19) + [1]
  const BOB: Address := Zeros(19) + [2]

  /** One whole principal of interest a block, all of it kept as reserves. */
  const STEEP: RateModel := RateModel(BLOCKS_PER_YEAR * RAY, 0, 0, RAY, RAY)

  /** The liquidator's own default threshold of one. */
  const DEFAULT: Config := Config(RAY, RAY, 0, 0)

  function Book(supply: int, borrows: int, reserves: int, index: int, block: nat): Reserve {
    Reserve(supply, borrows, reserves, RAY, RAY, RAY, 0, 0, block, true, false, true, index)
  }

  function Only(r: Reserve, positions: map<(Address, Address), Position>, balance: map<Address, int>, interest: int)
    : Pool
  {
    Pool(map[ASSET := r], positions, map[ASSET := STEEP], balance, interest, 0)
  }

  lemma OneBlockDue(r: Reserve)
    requires r == Book(1, 1, 0, RAY, 0)
    ensures InterestDue(r, Some(STEEP), 1) == 1
    ensures Accrued(r, Some(STEEP), 1) == Book(1, 2, 1, 2 * RAY, 1)
  {
    assert UtilizationRate(0, 1, 0) == RAY;
    assert BorrowRate(STEEP, 0, 1, 0) == RAY;
  }

  const ALICES: (Address, Address) := (ALICE, ASSET)
  const BOBS: (Address, Address) := (BOB, ASSET)

  /** The states of the run, from any balances. */
  function State(b: map<Address, int>, n: nat): Pool {
    var b2 := Transferred(b, ALICE, POOL, 1);
    var b3 := Transferred(b2, POOL, ALICE, 1);
    var b5 := Transferred(b3, BOB, POOL, 1);
    var owing := map[ALICES := Position(1, 2, 2 * RAY)];
    match n
    case 0 => Pool(map[], map[], map[], b, 0, 0)
    case 1 => Only(Book(0, 0, 0, RAY, 0), map[], b, 0)
    case 2 => Only(Book(1, 0, 0, RAY, 0), map[ALICES := Position(1, 0, RAY)], b2, 0)
    case 3 => Only(Book(1, 1, 0, RAY, 0), map[ALICES := Position(1, 1, RAY)], b3, 0)
    case 4 => Only(Book(1, 2, 1, 2 * RAY, 1), owing, b3, 1)
    case 5 => Only(Book(2, 2, 1, 2 * RAY, 1), owing[BOBS := Position(1, 0, 2 * RAY)], b5, 1)
    case _ =>
      Only(Book(1, 2, 1, 2 * RAY, 1), owing[BOBS := Position(1, 0, 2 * RAY)][ALICES := Position(0, 2, 2 * RAY)],
           Transferred(Transferred(b5, BOB, POOL, 0), POOL, BOB, 1), 1)
  }

  function StepAt(n: nat): Step {
    match n
    case 0 => Initialize(ASSET, RAY, RAY, Some(STEEP))
    case 1 => Supply(ALICE, ASSET, 1)
    case 2 => Borrow(ALICE, ASSET, 1)
    case 3 => Borrow(ALICE, ASSET, 1)
    case 4 => Supply(BOB, ASSET, 1)
    case _ => Liquidate(DEFAULT, BOB, ALICE, ASSET, 1)
  }

  function BlockAt(n: nat): nat {
    if n < 3 then 0 else 1
  }

  lemma ThreeAccounts()
    ensures ALICE != BOB && ALICE != POOL && BOB != POOL
  {
    assert ALICE[19] == 1 && BOB[19] == 2 && POOL[19] == 0x50;
  }

  lemma Lends(b: map<Address, int>)
    ensures Initialized(State(b, 0), ASSET, RAY, RAY, Some(STEEP), 0).pool == State(b, 1)
    ensures Supplied(State(b, 1), 0, ALICE, ASSET, 1).pool == State(b, 2)
    ensures Borrowed(State(b, 2), 0, ALICE, ASSET, 1).pool == State(b, 3)
  {
  }

  lemma Accrues(b: map<Address, int>)
    ensures Borrowed(State(b, 3), 1, ALICE, ASSET, 1).pool == State(b, 4)
  {
    OneBlockDue(Book(1, 1, 0, RAY, 0));
  }

  lemma Mends(b: map<Address, int>)
    ensures Supplied(State(b, 4), 1, BOB, ASSET, 1).pool == State(b, 5)
  {
    ThreeAccounts();
  }

  lemma OneUnitSeized()
    ensures SeizureFor(Position(1, 2, 2 * RAY), Book(2, 2, 1, 2 * RAY, 1), DEFAULT, 1) == Ok(Seizure(0, 1))
    ensures RecordedHealth(Position(1, 2, 2 * RAY), Book(2, 2, 1, 2 * RAY, 1)) < RAY
  {
  }

  lemma Seizes(b: map<Address, int>)
    ensures Liquidated(State(b, 5), DEFAULT, BOB, ALICE, ASSET, 1).pool == State(b, 6)
  {
    ThreeAccounts();
    OneUnitSeized();
    assert Executed(State(b, 5), DEFAULT, BOB, ALICE, ASSET, Seizure(0, 1)) == State(b, 6);
  }

  lemma StepsThrough(b: map<Address, int>, n: nat)
    requires n < 6
    ensures Callable(State(b, n), BlockAt(n), StepAt(n))
    ensures Inv(State(b, n)) ==> State(b, n + 1) == Apply(State(b, n), BlockAt(n), StepAt(n)).pool
  {
    hide State, Inv;
    ThreeAccounts();
    if n < 3 {
      Lends(b);
    } else if n == 3 {
      Accrues(b);
    } else if n == 4 {
      Mends(b);
    } else {
      Seizes(b);
    }
  }

  /** A run in which the cash does go negative, twice. Alice lends one unit to herself; a block later the accrual of
      a refused borrow takes the cash below zero; a supply of Bob's mends it; and Bob's liquidation of Alice, at the
      default threshold, takes it below again. */
  lemma CashMayGoNegative(b: map<Address, int>) returns (ss: seq<Pool>, blocks: seq<nat>, ts: seq<Step>)
    ensures IsRun(ss, blocks, ts) && |ts| == 6
    ensures ts[3] == Borrow(ALICE, ASSET, 1) && ts[5] == Liquidate(DEFAULT, BOB, ALICE, ASSET, 1)
    ensures Cash(ss[3], ASSET) == 0 && Cash(ss[4], ASSET) == -1
    ensures Cash(ss[5], ASSET) == 0 && Cash(ss[6], ASSET) == -1
  {
    ss, blocks, ts := seq(7, n requires 0 <= n < 7 => State(b, n)), seq(6, n requires 0 <= n < 6 => BlockAt(n)),
                      seq(6, n requires 0 <= n < 6 => StepAt(n));
    forall n | 0 <= n < 6
      ensures Callable(ss[n], blocks[n], ts[n])
      ensures Inv(ss[n]) ==> ss[n + 1] == Apply(ss[n], blocks[n], ts[n]).pool
    {
      StepsThrough(b, n);
    }
    assert Fresh(ss[0]);
  }

  /** A supply of 2^256 units moves nothing and is recorded in full: a run in which the pool's balance is not the
      number the books say. */
  lemma BalanceMayWrap() returns (ss: seq<Pool>, blocks: seq<nat>, ts: seq<Step>)
    ensures IsRun(ss, blocks, ts) && BalanceOf(ss[0].balance, POOL) == 0
    ensures ts == [Initialize(ASSET, RAY, RAY, Some(STEEP)), Supply(ALICE, ASSET, U256)]
    ensures BalanceOf(ss[2].balance, POOL) == 0
    ensures ss[2].interest + ss[2].fees - SumMap(ss[2].reserves, BookWeight()) == U256
  {
    hide Inv;
    ThreeAccounts();
    Lends(map[]);
    SpanSupplied();
    ss, blocks := [State(map[], 0), State(map[], 1), Spanned()], [0, 0];
    ts := [Initialize(ASSET, RAY, RAY, Some(STEEP)), Supply(ALICE, ASSET, U256)];
    SumMapInsert<Address, Reserve>(map[], BookWeight(), ASSET, Book(U256, 0, 0, RAY, 0));
    assert map[][ASSET := Book(U256, 0, 0, RAY, 0)] == Spanned().reserves;
  }

  function Spanned(): Pool {
    Only(Book(U256, 0, 0, RAY, 0), map[ALICES := Position(U256, 0, RAY)], Transferred(map[], ALICE, POOL, U256), 0)
  }

  lemma SpanSupplied()
    ensures Supplied(State(map[], 1), 0, ALICE, ASSET, U256).pool == Spanned()
    ensures BalanceOf(Spanned().balance, POOL) == 0
  {
    ThreeAccounts();
    WholeSpan();
  }

  lemma WholeSpan()
    ensures U256 % U256 == 0 && U256 * RAY / RAY == U256
  {
  }
}

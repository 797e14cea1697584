/** What every lending operation keeps, success or error: no debt the totals do not cover, and every
    unit of value accounted for. */
module LendingInvariant {
  import opened Bytes
  import opened InterestRate
  import opened LendingState
  import opened Rounding
  import opened Sums
  import opened Wrappers

  // ----- debt -----

  /** BorrowAmount * reserve.BorrowIndex / user.BorrowIndex, the exact rational. */
  function Debt(p: Position, index: int): real
    requires p.borrowIndex > 0
  {
    p.borrowAmount as real * index as real / p.borrowIndex as real
  }

  ghost function DebtWeight(a: Address, index: int): ((Address, Address), Position) -> real {
    (k: (Address, Address), p: Position) => if k.1 == a && p.borrowIndex > 0 then Debt(p, index) else 0.0
  }

  /** What all users together owe of asset `a` at the reserve's index. */
  ghost function Owed(s: Pool, a: Address): real
    requires a in s.reserves
  {
    SumReal(s.positions, DebtWeight(a, s.reserves[a].borrowIndex))
  }

  function DebtAt(s: Pool, k: (Address, Address), index: int): real
    requires k in s.positions ==> s.positions[k].borrowIndex > 0
  {
    if k in s.positions then Debt(s.positions[k], index) else 0.0
  }

  // ----- the invariant -----

  predicate ReserveSound(r: Reserve) {
    && r.totalBorrows >= 0 && r.exchangeRate >= RAY && r.borrowIndex >= RAY
    && r.liquidationBonus > -RAY && r.lastUpdateBlock < TWO63
  }

  predicate PositionSound(p: Position, r: Reserve) {
    p.supplyShares >= 0 && p.borrowAmount >= 0 && RAY <= p.borrowIndex <= r.borrowIndex
  }

  ghost predicate Shaped(s: Pool) {
    && (forall a :: a in s.reserves ==> ReserveSound(s.reserves[a]))
    && (forall a :: a in s.models ==> Sound(s.models[a]))
    && (forall k :: k in s.positions ==> k.1 in s.reserves && PositionSound(s.positions[k], s.reserves[k.1]))
  }

  /** Users owe no more than the recorded total borrows. */
  ghost predicate Solvent(s: Pool, a: Address)
    requires a in s.reserves
  {
    Owed(s, a) <= s.reserves[a].totalBorrows as real
  }

  ghost predicate Inv(s: Pool) {
    Shaped(s) && forall a :: a in s.reserves ==> Solvent(s, a)
  }

  predicate ConfigSound(c: Config) {
    0 < c.closeFactor <= RAY && 0 <= c.protocolFee <= RAY && c.minLiquidation >= 0
  }

  // ----- rational arithmetic -----

  lemma RealMulMono(x: real, y: real, z: real)
    requires x <= y && z >= 0.0
    ensures x * z <= y * z
  {
  }

  /** x <= n/d when x*d <= n, and back. */
  lemma QuotientBound(x: real, n: real, d: real)
    requires d > 0.0
    ensures x <= n / d <==> x * d <= n
  {
    assert n / d * d == n;
    if x <= n / d {
      RealMulMono(x, n / d, d);
    } else {
      assert (x - n / d) * d > 0.0;
    }
  }

  lemma QuotientNonNegative(n: real, d: real)
    requires n >= 0.0 && d > 0.0
    ensures n / d >= 0.0
  {
    QuotientBound(0.0, n, d);
  }

  lemma DebtNonNegative(p: Position, index: int)
    requires p.borrowAmount >= 0 && p.borrowIndex > 0 && index >= 0
    ensures Debt(p, index) >= 0.0
  {
    RealMulMono(0.0, p.borrowAmount as real, index as real);
    QuotientNonNegative(p.borrowAmount as real * index as real, p.borrowIndex as real);
  }

  /** A debt recorded at the reserve's own index is worth its face value. */
  lemma DebtAtOwnIndex(p: Position)
    requires p.borrowIndex > 0
    ensures Debt(p, p.borrowIndex) == p.borrowAmount as real
  {
  }

  /** Any debt is worth at least its recorded amount. */
  lemma DebtAtLeastRecorded(p: Position, index: int)
    requires p.borrowAmount >= 0 && 0 < p.borrowIndex <= index
    ensures Debt(p, index) >= p.borrowAmount as real
  {
    RealMulMono(p.borrowIndex as real, index as real, p.borrowAmount as real);
    QuotientBound(p.borrowAmount as real, p.borrowAmount as real * index as real, p.borrowIndex as real);
  }

  lemma DebtRescaled(p: Position, index: int, index': int)
    requires p.borrowIndex > 0 && index > 0
    ensures Debt(p, index') == Scaled(index, index')(Debt(p, index))
  {
    RatioSwap(p.borrowAmount as real, index as real, index' as real, p.borrowIndex as real);
  }

  lemma RatioSwap(b: real, i: real, j: real, d: real)
    requires i > 0.0 && d > 0.0
    ensures b * j / d == b * i / d * j / i
  {
    var q := b * i / d;
    assert q * d == b * i;
    var r := q * j / i;
    assert r * i == q * j;
    assert (r * d) * i == (q * d) * j == (b * j) * i;
    assert r * d == b * j;
  }

  /** x * index' / index, as a map on debts. */
  ghost function Scaled(index: int, index': int): real -> real
    requires index > 0
  {
    (x: real) => x * index' as real / index as real
  }

  lemma ScaledAdditive(index: int, index': int)
    requires index > 0
    ensures Additive(Scaled(index, index'))
  {
    forall x: real, y: real
      ensures AddsAt(Scaled(index, index'), x, y)
    {
      QuotientAdd(x, y, index' as real, index as real);
    }
  }

  lemma QuotientAdd(x: real, y: real, j: real, i: real)
    requires i > 0.0
    ensures (x + y) * j / i == x * j / i + y * j / i
  {
    assert x * j / i * i == x * j && y * j / i * i == y * j;
    assert (x * j / i + y * j / i) * i == (x + y) * j;
  }

  /** Raising the index by floor(due * RAY / total) raises what is owed by at most `due`. */
  lemma AccrualCovered(owed: real, index: int, total: int, due: int)
    requires 0.0 <= owed <= total as real && index >= RAY && total > 0 && due >= 0
    ensures Scaled(index, index + due * RAY / total)(owed) <= (total + due) as real
  {
    var rise := due * RAY / total;
    FloorAtLeast(due * RAY, total, rise);
    DivNonNegative(due * RAY, total);
    MulMono(RAY, index, due);
    assert (rise * total) as real <= (due * index) as real;
    RiseCovered(owed, index as real, total as real, due as real, rise as real);
  }

  lemma RiseCovered(u: real, i: real, t: real, d: real, r: real)
    requires 0.0 <= u <= t && i > 0.0 && r >= 0.0 && r * t <= d * i
    ensures u * (i + r) / i <= t + d
  {
    RealMulMono(u, t, i);
    RealMulMono(u, t, r);
    assert u * (i + r) <= (t + d) * i;
    QuotientAtMost(u * (i + r), i, t + d);
  }

  lemma QuotientAtMost(n: real, d: real, x: real)
    requires d > 0.0 && n <= x * d
    ensures n / d <= x
  {
    var q := n / d;
    assert q * d == n;
    if q > x {
      assert (q - x) * d > 0.0;
      assert (q - x) * d == q * d - x * d;
    }
  }

  // ----- accrual -----

  lemma DueNonNegative(s: Pool, a: Address, block: nat)
    requires Shaped(s) && a in s.reserves && block < TWO63
    ensures InterestDue(s.reserves[a], ModelOf(s, a), block) >= 0
  {
    var r := s.reserves[a];
    if block > r.lastUpdateBlock && ModelOf(s, a).Some? {
      AccrualNonNegative(s.models[a], r.totalBorrows, r.totalSupply - r.totalBorrows, r.totalBorrows, r.totalReserves,
                         block - r.lastUpdateBlock);
    }
  }

  lemma KeptWithin(m: RateModel, due: int)
    requires Sound(m) && due >= 0
    ensures 0 <= ReserveAmount(m, due) <= due
  {
    ScaledDown(due, m.reserveFactor);
    DivNonNegative(due * m.reserveFactor, RAY);
  }

  lemma AccruedSound(s: Pool, a: Address, block: nat)
    requires Shaped(s) && a in s.reserves && block < TWO63
    ensures var r, r' := s.reserves[a], Accrued(s.reserves[a], ModelOf(s, a), block);
            && ReserveSound(r') && r'.borrowIndex >= r.borrowIndex
            && r'.totalBorrows == r.totalBorrows + InterestDue(r, ModelOf(s, a), block)
            && r'.totalSupply == r.totalSupply
  {
    var r, m := s.reserves[a], ModelOf(s, a);
    DueNonNegative(s, a, block);
    if block > r.lastUpdateBlock && r.totalBorrows != 0 && m.Some? {
      var due := InterestDue(r, m, block);
      KeptWithin(m.value, due);
      DivNonNegative(due * RAY, r.totalBorrows);
      if r.totalSupply > 0 {
        DivNonNegative((due - ReserveAmount(m.value, due)) * RAY, r.totalSupply);
      }
    }
  }

  lemma FloorGap(n: int, d: int)
    requires d > 0
    ensures 0 <= n - n / d * d < d
  {
    assert n == n / d * d + n % d;
  }

  /** Where one accrual goes: borrowers owe `due` more, the protocol keeps its share, and index and exchange rate
      rise by what `due` and the lenders' share come to per unit, short of it by less than one unit. */
  lemma AccrualIsSplit(r: Reserve, m: RateModel, due: int)
    requires ReserveSound(r) && Sound(m) && r.totalBorrows > 0 && r.totalSupply > 0 && due >= 0
    ensures var r' := WithInterest(r, m, due);
            var kept := r'.totalReserves - r.totalReserves;
            && r'.totalBorrows == r.totalBorrows + due && 0 <= kept <= due
            && 0 <= due * RAY - (r'.borrowIndex - r.borrowIndex) * r.totalBorrows < r.totalBorrows
            && 0 <= (due - kept) * RAY - (r'.exchangeRate - r.exchangeRate) * r.totalSupply < r.totalSupply
            && 0 <= due * m.reserveFactor - kept * RAY < RAY
  {
    KeptWithin(m, due);
    FloorGap(due * RAY, r.totalBorrows);
    FloorGap((due - ReserveAmount(m, due)) * RAY, r.totalSupply);
    FloorGap(due * m.reserveFactor, RAY);
  }

  lemma OwedNonNegative(s: Pool, a: Address)
    requires Shaped(s) && a in s.reserves
    ensures Owed(s, a) >= 0.0
  {
    var w := DebtWeight(a, s.reserves[a].borrowIndex);
    forall k | k in s.positions
      ensures w(k, s.positions[k]) >= 0.0
    {
      DebtNonNegative(s.positions[k], s.reserves[a].borrowIndex);
    }
    SumRealNonNegative(s.positions, w);
  }

  /** A new index scales what everybody owes by the same ratio. */
  lemma OwedRescaled(s: Pool, s': Pool, a: Address)
    requires Shaped(s) && a in s.reserves && a in s'.reserves && s'.positions == s.positions
    ensures Owed(s', a) == Scaled(s.reserves[a].borrowIndex, s'.reserves[a].borrowIndex)(Owed(s, a))
  {
    var i, j := s.reserves[a].borrowIndex, s'.reserves[a].borrowIndex;
    ScaledAdditive(i, j);
    forall k | k in s.positions
      ensures DebtWeight(a, j)(k, s.positions[k]) == Scaled(i, j)(DebtWeight(a, i)(k, s.positions[k]))
    {
      if k.1 == a {
        DebtRescaled(s.positions[k], i, j);
      }
    }
    SumRealMapped(s.positions, DebtWeight(a, i), Scaled(i, j), DebtWeight(a, j));
  }

  lemma AccrueKeepsInv(s: Pool, a: Address, block: nat)
    requires Inv(s) && a in s.reserves && block < TWO63
    ensures Inv(AccruePool(s, a, block))
  {
    AccruedSound(s, a, block);
    AccrueSolvent(s, a, block);
    forall b | b in s.reserves && b != a
      ensures Solvent(AccruePool(s, a, block), b)
    {
      SameDebtSolvent(s, AccruePool(s, a, block), b);
    }
  }

  lemma SameDebtSolvent(s: Pool, s': Pool, b: Address)
    requires b in s.reserves && b in s'.reserves && s'.reserves[b] == s.reserves[b] && Solvent(s, b)
    requires s'.positions == s.positions
    ensures Solvent(s', b)
  {
  }

  lemma AccrueSolvent(s: Pool, a: Address, block: nat)
    requires Shaped(s) && a in s.reserves && Solvent(s, a) && block < TWO63
    ensures Solvent(AccruePool(s, a, block), a)
  {
    var r, m := s.reserves[a], ModelOf(s, a);
    if block > r.lastUpdateBlock && r.totalBorrows != 0 && m.Some? {
      DueNonNegative(s, a, block);
      OwedNonNegative(s, a);
      OwedRescaled(s, AccruePool(s, a, block), a);
      AccrualCovered(Owed(s, a), r.borrowIndex, r.totalBorrows, InterestDue(r, m, block));
    } else {
      assert AccruePool(s, a, block).reserves[a].borrowIndex == r.borrowIndex;
    }
  }

  // ----- one position and its reserve's total move together -----

  lemma OwedMoves(s: Pool, s': Pool, k: (Address, Address), p': Position, b: Address)
    requires b in s.reserves && b in s'.reserves && s'.reserves[b].borrowIndex == s.reserves[b].borrowIndex
    requires s'.positions == s.positions[k := p'] && p'.borrowIndex > 0
    requires k in s.positions ==> s.positions[k].borrowIndex > 0
    ensures var i := s.reserves[b].borrowIndex;
            Owed(s', b) == if b == k.1 then Owed(s, b) + Debt(p', i) - DebtAt(s, k, i) else Owed(s, b)
  {
    SumRealInsert(s.positions, DebtWeight(b, s.reserves[b].borrowIndex), k, p');
  }

  /** If re-recording one debt raises its value by at most `change`, and the total borrows rise by at least
      that, the pool stays solvent. */
  lemma DebtMoves(s: Pool, s': Pool, k: (Address, Address), p': Position, change: int)
    requires Inv(s) && k.1 in s.reserves && s'.reserves.Keys == s.reserves.Keys
    requires s'.positions == s.positions[k := p'] && s'.models == s.models
    requires forall b :: b in s.reserves && b != k.1 ==> s'.reserves[b] == s.reserves[b]
    requires ReserveSound(s'.reserves[k.1]) && PositionSound(p', s'.reserves[k.1])
    requires s'.reserves[k.1].borrowIndex == s.reserves[k.1].borrowIndex
    requires Debt(p', s.reserves[k.1].borrowIndex) - DebtAt(s, k, s.reserves[k.1].borrowIndex) <= change as real
    requires s'.reserves[k.1].totalBorrows - s.reserves[k.1].totalBorrows >= change
    ensures Inv(s')
  {
    ShapeKept(s, s', k, p');
    forall b | b in s'.reserves
      ensures Solvent(s', b)
    {
      hide Debt, DebtAt, Shaped, ReserveSound, PositionSound;
      assert Solvent(s, b);
      OwedMoves(s, s', k, p', b);
    }
  }

  lemma ShapeKept(s: Pool, s': Pool, k: (Address, Address), p': Position)
    requires Shaped(s) && k.1 in s.reserves && s'.reserves.Keys == s.reserves.Keys
    requires s'.positions == s.positions[k := p'] && s'.models == s.models
    requires forall b :: b in s.reserves && b != k.1 ==> s'.reserves[b] == s.reserves[b]
    requires ReserveSound(s'.reserves[k.1]) && PositionSound(p', s'.reserves[k.1])
    requires s'.reserves[k.1].borrowIndex == s.reserves[k.1].borrowIndex
    ensures Shaped(s')
  {
  }

  /** Re-expressing a debt at the current index rounds it down. */
  lemma RebasedDebt(p: Position, r: Reserve)
    requires PositionSound(p, r) && r.borrowIndex > 0
    ensures PositionSound(Rebased(p, r), r)
    ensures Debt(Rebased(p, r), r.borrowIndex) <= Debt(p, r.borrowIndex)
    ensures p.borrowAmount > 0 ==> Rebased(p, r).borrowIndex == r.borrowIndex && Rebased(p, r).borrowAmount > 0
  {
    if p.borrowAmount != 0 && r.borrowIndex != p.borrowIndex {
      var b, i, j := p.borrowAmount, r.borrowIndex, p.borrowIndex;
      MulMono(j, i, b);
      FloorAtLeast(b * i, j, b);
      FloorAtLeast(b * i, j, b * i / j);
      assert (b * i / j * j) as real <= (b * i) as real;
      QuotientBound((b * i / j) as real, b as real * i as real, j as real);
      DebtAtOwnIndex(Rebased(p, r));
    }
  }

  lemma RebaseKeepsInv(s: Pool, user: Address, a: Address)
    requires Inv(s) && a in s.reserves && (user, a) in s.positions
    ensures Inv(RebasePool(s, user, a))
  {
    var p, r := s.positions[(user, a)], s.reserves[a];
    RebasedDebt(p, r);
    DebtMoves(s, RebasePool(s, user, a), (user, a), Rebased(p, r), 0);
  }

  /** One user's recorded debt never exceeds the reserve's total borrows. */
  lemma OneDebtCovered(s: Pool, user: Address, a: Address)
    requires Inv(s) && a in s.reserves && (user, a) in s.positions
    ensures Debt(s.positions[(user, a)], s.reserves[a].borrowIndex) <= s.reserves[a].totalBorrows as real
    ensures s.positions[(user, a)].borrowAmount <= s.reserves[a].totalBorrows
  {
    var p, r := s.positions[(user, a)], s.reserves[a];
    var w := DebtWeight(a, r.borrowIndex);
    forall k | k in s.positions
      ensures w(k, s.positions[k]) >= 0.0
    {
      DebtNonNegative(s.positions[k], r.borrowIndex);
    }
    SumRealAtLeast(s.positions, w, (user, a));
    assert Solvent(s, a);
    DebtAtLeastRecorded(p, r.borrowIndex);
  }
}

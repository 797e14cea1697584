/** What each call of the rail does, told from its arguments and the books alone: when it succeeds, what a refusal
    means, and which balances and pots move by how much. */
module RailLaws {
  import opened Bytes
  import opened RailInvariant
  import opened RailState
  import opened RailWorld
  import opened Staging
  import opened Sums
  import opened Wire
  import opened Wrappers

  /** `from` gives up `taken` of a token and `to` gets `got`; no other balance moves. */
  ghost predicate Moves(b: map<(Token, Address), nat>, b': map<(Token, Address), nat>, t: Token,
                        from: Address, taken: nat, to: Address, got: nat)
  {
    forall k: (Token, Address) ::
      At(b', k) == At(b, k) as int - (if k == (t, from) then taken else 0) + (if k == (t, to) then got else 0)
  }

  /** One entry moves by `d`, no other. */
  ghost predicate Adds<K(!new)>(m: map<K, nat>, m': map<K, nat>, k: K, d: int) {
    forall j: K :: At(m', j) == At(m, j) as int + if j == k then d else 0
  }

  /** The token let `amount` be pulled from `from`. */
  predicate Pays(b: map<(Token, Address), nat>, t: Token, from: Address, amount: nat, pull: Pull) {
    pull.Pulled? && pull.taken <= At(b, (t, from)) && amount <= pull.delivered
  }

  /** What a failed pull failed for. */
  predicate PullFailed(b: map<(Token, Address), nat>, t: Token, from: Address, amount: nat, pull: Pull, err: RailError) {
    match err
    case ERC20TransferFailed => pull.PullRefused? || At(b, (t, from)) < pull.taken
    case ERC20UnderDelivered => pull.Pulled? && pull.delivered < amount
    case _ => false
  }

  // ----- Export -----

  lemma ExportSucceedsIff(e: Evm, ctx: Ctx, t: Transfer, pull: Pull)
    ensures ExportRefusal(e, ctx, t, pull).None? <==>
            && ctx.memory && ctx.dChain != Zeros(32) && t.amount > 0 && At(e.written, ctx.claimID) == 0
            && (if t.asset == Zeros(32) then t.amount <= At(e.balance, (Zeros(20), t.owner))
                else Pays(e.balance, t.assetAddr, t.owner, t.amount, pull))
    ensures forall err :: ExportRefusal(e, ctx, t, pull) == Some(err) ==>
              match err
              case NoAtomicMemory => !ctx.memory || ctx.dChain == Zeros(32)
              case BadAmount => t.amount == 0
              case FundsShort => t.asset == Zeros(32) && At(e.balance, (Zeros(20), t.owner)) < t.amount
              case ExportReplay => At(e.written, ctx.claimID) != 0
              case _ => t.asset != Zeros(32) && PullFailed(e.balance, t.assetAddr, t.owner, t.amount, pull, err)
  {
  }

  lemma ExportMoves(e: Evm, ctx: Ctx, t: Transfer, pull: Pull)
    requires t.owner != VAULT && ExportRefusal(e, ctx, t, pull).None?
    ensures var e' := Exported(e, ctx, t, pull);
            && Adds(e.custody, e'.custody, t.asset, t.amount)
            && e'.written == e.written[ctx.claimID := (ctx.height + 1) % 0x1_0000_0000_0000_0000]
            && e'.exports == e.exports + [t]
            && e' == e.(custody := e'.custody, written := e'.written, staged := e'.staged, exports := e'.exports,
                        balance := e'.balance)
    ensures if t.asset == Zeros(32) then
              Moves(e.balance, Exported(e, ctx, t, pull).balance, Zeros(20), t.owner, t.amount, VAULT, t.amount)
            else Moves(e.balance, Exported(e, ctx, t, pull).balance, t.assetAddr, t.owner, pull.taken, VAULT,
                       pull.delivered)
  {
  }

  // ----- Import -----

  /** What the vault can pay of a recorded claim. */
  predicate Payable(e: Evm, asset: Word, amount: nat, push: Push) {
    && amount <= At(e.custody, asset)
    && (if asset == Zeros(32) then amount <= At(e.balance, (Zeros(20), VAULT))
        else push.Pushed? && amount <= At(e.balance, (asset[12..32], VAULT)))
  }

  /** An import succeeds exactly for an unconsumed object that names, byte for byte, the asset and the beneficiary the
      caller stated and an amount the vault can pay. */
  lemma ImportSucceedsIff(e: Evm, ctx: Ctx, c: ClaimArg, push: Push)
    ensures ImportRefusal(e, ctx, c, push).None? <==>
            && ctx.memory && ctx.dChain != Zeros(32) && At(e.consumed, c.id) == 0
            && |c.claim| == 60 && c.claim[0..20] == c.beneficiary && c.claim[20..52] == c.asset
            && FromBE(c.claim[52..60]) > 0 && Payable(e, c.asset, FromBE(c.claim[52..60]), push)
    ensures forall err :: ImportRefusal(e, ctx, c, push) == Some(err) ==>
              match err
              case NoAtomicMemory => !ctx.memory || ctx.dChain == Zeros(32)
              case ImportMalformed => |c.claim| != 60
              case ImportAmount => |c.claim| == 60 && FromBE(c.claim[52..60]) == 0
              case ImportAsset => |c.claim| == 60 && c.claim[20..52] != c.asset
              case ImportBeneficiary => |c.claim| == 60 && c.claim[0..20] != c.beneficiary
              case ImportReplay => At(e.consumed, c.id) != 0
              case CustodyUnbacked =>
                |c.claim| == 60 && !Payable(e, c.asset, FromBE(c.claim[52..60]), push)
              case ERC20TransferFailed =>
                |c.claim| == 60 && c.asset != Zeros(32) && !Payable(e, c.asset, FromBE(c.claim[52..60]), push)
              case _ => false
  {
  }

  lemma ImportMoves(e: Evm, ctx: Ctx, c: ClaimArg, push: Push)
    requires ImportRefusal(e, ctx, c, push).None?
    ensures var e', n := Imported(e, ctx, c, push), FromBE(c.claim[52..60]);
            && Adds(e.custody, e'.custody, c.asset, 0 as int - n)
            && Adds(e.paid, e'.paid, (c.beneficiary, c.asset), n)
            && e'.consumed == e.consumed[c.id := (ctx.height + 1) % 0x1_0000_0000_0000_0000]
            && e'.declared == e.declared + [Declaration(c.id, c.claim)]
            && e'.staged == e.staged + [StagedRemove(ctx.dChain, c.id)]
            && e' == e.(custody := e'.custody, paid := e'.paid, consumed := e'.consumed, declared := e'.declared,
                        staged := e'.staged, balance := e'.balance)
    ensures var e', n := Imported(e, ctx, c, push), FromBE(c.claim[52..60]);
            if c.asset == Zeros(32) then Moves(e.balance, e'.balance, Zeros(20), VAULT, n, c.beneficiary, n)
            else Moves(e.balance, e'.balance, c.asset[12..32], VAULT, n, c.beneficiary, push.received)
  {
  }

  // ----- deposits, withdrawals, seeds -----

  /** The value the host moves before the call. */
  lemma ValueMoves(e: Evm, caller: Address, value: nat)
    requires value <= At(e.balance, (NATIVE, caller))
    ensures Moves(e.balance, WithValue(e, caller, value).balance, Zeros(20), caller, value, VAULT, value)
    ensures WithValue(e, caller, value) == e.(balance := WithValue(e, caller, value).balance)
  {
  }

  /** What the vault holds of native value beyond both pots. */
  function Undistributed(e: Evm): int {
    At(e.balance, (Zeros(20), VAULT)) as int - At(e.settleVault, Zeros(32)) - At(e.custody, Zeros(32))
  }

  /** A deposit or seed of `amount` that the caller delivered. */
  predicate Delivered(e: Evm, caller: Address, t: Token, amount: nat, pull: Pull) {
    if t == Zeros(20) then amount <= Undistributed(e) else Pays(e.balance, t, caller, amount, pull)
  }

  lemma DepositSucceedsIff(e: Evm, caller: Address, t: Token, amount: nat, pull: Pull)
    ensures DepositRefusal(e, caller, t, amount, pull).None? <==>
            && amount > 0 && Zeros(12) + t !in e.halted && !e.entered && Delivered(e, caller, t, amount, pull)
    ensures forall err :: DepositRefusal(e, caller, t, amount, pull) == Some(err) ==>
              match err
              case BadAmount => amount == 0
              case AssetHalted => Zeros(12) + t in e.halted
              case CustodyReentrant => e.entered
              case DepositShort => t == Zeros(20) && Undistributed(e) < amount
              case _ => t != Zeros(20) && PullFailed(e.balance, t, caller, amount, pull, err)
  {
    NativeAssetOnly(NATIVE);
  }

  lemma DepositMoves(e: Evm, caller: Address, t: Token, amount: nat, pull: Pull)
    requires DepositRefusal(e, caller, t, amount, pull).None?
    ensures var e' := Deposited(e, caller, t, amount, pull);
            && Adds(e.claims, e'.claims, (caller, Zeros(12) + t), amount)
            && Adds(e.settleVault, e'.settleVault, Zeros(12) + t, amount)
            && (if t == Zeros(20) then e'.balance == e.balance
                else Moves(e.balance, e'.balance, t, caller, pull.taken, VAULT, pull.delivered))
            && e' == e.(claims := e'.claims, settleVault := e'.settleVault, balance := e'.balance)
  {
  }

  /** What a withdrawal pays: what is asked, at most the caller's claim, at most the pot. */
  predicate IsLeast(n: nat, want: nat, claim: nat, pot: nat) {
    n <= want && n <= claim && n <= pot && (n == want || n == claim || n == pot)
  }

  lemma WithdrawSucceedsIff(e: Evm, caller: Address, t: Token, want: nat, push: Push, n: nat)
    requires IsLeast(n, want, At(e.claims, (caller, Zeros(12) + t)), At(e.settleVault, Zeros(12) + t))
    ensures Realized(e.claims, e.settleVault, caller, t, want) == n
    ensures WithdrawRefusal(e, caller, t, want, push).None? <==>
            && !e.entered
            && (n == 0 || (n <= At(e.balance, (t, VAULT)) && (t == Zeros(20) || push.Pushed?)))
    ensures forall err :: WithdrawRefusal(e, caller, t, want, push) == Some(err) ==>
              match err
              case CustodyReentrant => e.entered
              case ClaimShort => t == Zeros(20) && At(e.balance, (t, VAULT)) < n
              case ERC20TransferFailed => t != Zeros(20) && (push.PushRefused? || At(e.balance, (t, VAULT)) < n)
              case _ => false
  {
  }

  lemma WithdrawMoves(e: Evm, caller: Address, t: Token, want: nat, push: Push, n: nat)
    requires IsLeast(n, want, At(e.claims, (caller, Zeros(12) + t)), At(e.settleVault, Zeros(12) + t))
    requires WithdrawRefusal(e, caller, t, want, push).None?
    ensures var e' := Withdrawn(e, caller, t, want, push);
            && Adds(e.claims, e'.claims, (caller, Zeros(12) + t), 0 as int - n)
            && Adds(e.settleVault, e'.settleVault, Zeros(12) + t, 0 as int - n)
            && (n > 0 ==> Moves(e.balance, e'.balance, t, VAULT, n, caller, if t == Zeros(20) then n else push.received))
            && (n == 0 ==> e' == e)
            && e' == e.(claims := e'.claims, settleVault := e'.settleVault, balance := e'.balance)
  {
    WithdrawSucceedsIff(e, caller, t, want, push, n);
  }

  lemma SeedSucceedsIff(e: Evm, governor: Option<Address>, caller: Address, t: Token, amount: nat, pull: Pull)
    ensures SeedRefusal(e, governor, caller, t, amount, pull).None? <==>
            governor == Some(caller) && amount > 0 && !e.entered && Delivered(e, caller, t, amount, pull)
    ensures forall err :: SeedRefusal(e, governor, caller, t, amount, pull) == Some(err) ==>
              match err
              case NoGovernor => governor.None?
              case Unauthorized => governor.Some? && governor.value != caller
              case BadAmount => amount == 0
              case CustodyReentrant => e.entered
              case SeedUndelivered => t == Zeros(20) && Undistributed(e) < amount
              case _ => t != Zeros(20) && PullFailed(e.balance, t, caller, amount, pull, err)
  {
    NativeAssetOnly(NATIVE);
  }

  lemma SeedMoves(e: Evm, governor: Option<Address>, caller: Address, t: Token, amount: nat, pull: Pull)
    requires SeedRefusal(e, governor, caller, t, amount, pull).None?
    ensures var e' := Seeded(e, governor, caller, t, amount, pull);
            var n := if t == Zeros(20) then Undistributed(e) else amount;
            && Adds(e.custody, e'.custody, Zeros(12) + t, n) && Adds(e.seeded, e'.seeded, Zeros(12) + t, n)
            && (if t == Zeros(20) then e'.balance == e.balance
                else Moves(e.balance, e'.balance, t, caller, pull.taken, VAULT, pull.delivered))
            && e' == e.(custody := e'.custody, seeded := e'.seeded, balance := e'.balance)
  {
    NativeAssetOnly(NATIVE);
  }

  // ----- a deposit is never stranded -----

  ghost predicate NoneInside(w: World) {
    !w.accepted.entered && !w.cur.entered && forall i :: 0 <= i < |w.saved| ==> !w.saved[i].entered
  }

  lemma FrameLeavesGuard(e: Evm, c: Call)
    requires Callable(e, c)
    ensures Frame(e, c).entered == e.entered
  {
  }

  /** Between calls nobody is inside the custody guard. */
  lemma {:induction false} GuardIsFree(ws: seq<World>, steps: seq<Step>, n: nat)
    requires IsRun(ws, steps) && n < |ws|
    ensures NoneInside(ws[n])
  {
    hide Frame, Callable;
    if n > 0 {
      GuardIsFree(ws, steps, n - 1);
      if steps[n - 1].CallStep? {
        FrameLeavesGuard(ws[n - 1].cur, steps[n - 1].c);
      }
    }
  }

  /** In any run whose exports name their tokens a depositor can withdraw what is claimed: the payout is what is asked,
      up to the claim, and nothing but the token itself can refuse it. */
  lemma DepositsComeBack(ws: seq<World>, steps: seq<Step>, n: nat, who: Address, t: Token, want: nat, push: Push)
    requires IsRun(ws, steps) && n < |ws| && AllNamed(steps, n)
    ensures var e := ws[n].cur;
            var claim := At(e.claims, (who, Zeros(12) + t));
            && Realized(e.claims, e.settleVault, who, t, want) == (if want < claim then want else claim)
            && (WithdrawRefusal(e, who, t, want, push).None?
                <==> t == Zeros(20) || push.Pushed? || want == 0 || claim == 0)
  {
    hide InStep, Local, PotsCovered;
    var e, a := ws[n].cur, Zeros(12) + t;
    var claim := At(e.claims, (who, a));
    GuardIsFree(ws, steps, n);
    DepositorPotIsClaims(ws, steps, n, a);
    ClaimWithinPot(e.claims, who, a);
    VaultCoversBothPots(ws, steps, n, t);
    WithdrawSucceedsIff(e, who, t, want, push, if want < claim then want else claim);
  }

  lemma ClaimWithinPot(claims: map<(Address, Word), nat>, who: Address, a: Word)
    ensures At(claims, (who, a)) <= SumMap(claims, HeldWeight(a))
  {
    if (who, a) in claims {
      SumMapAtLeast(claims, HeldWeight(a), (who, a));
    } else {
      SumMapNonNegative(claims, HeldWeight(a));
    }
  }
}

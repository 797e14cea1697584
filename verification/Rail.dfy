/** The 0x9999 funding rail as it runs: each entry point checks and writes in the source's order,
    and is proved to leave exactly the state its value-level meaning names. */
module Rail {
  import opened Bytes
  import opened RailState
  import opened Staging
  import opened Sums
  import opened Wire
  import opened Wrappers

  class StateDB {
    var balance: map<(Token, Address), nat>
    var settleVault: map<Word, nat>
    var custody: map<Word, nat>
    var claims: map<(Address, Word), nat>
    var written: map<Word, nat>
    var consumed: map<Word, nat>
    var staged: seq<StagedOp>
    var declared: seq<Declaration>
    var entered: bool
    var halted: set<Word>
    ghost var seeded: map<Word, nat>
    ghost var paid: map<(Address, Word), nat>
    ghost var exports: seq<Transfer>

    constructor (b: map<(Token, Address), nat>)
      ensures Snapshot() == Untouched(b)
    {
      balance, settleVault, custody, claims := b, map[], map[], map[];
      written, consumed, staged, declared := map[], map[], [], [];
      entered, halted, seeded, paid, exports := false, {}, map[], map[], [];
    }

    ghost function Snapshot(): Evm
      reads this
    {
      Evm(balance, settleVault, custody, claims, written, consumed, staged, declared,
          entered, halted, seeded, paid, exports)
    }

    // ----- the custody guard -----

    method EnterCustody() returns (ok: bool)
      modifies this`entered
      ensures ok == !old(entered) && entered
    {
      if entered { return false; }
      entered := true;
      return true;
    }

    method ExitCustody()
      modifies this`entered
      ensures !entered
    {
      entered := false;
    }

    // ----- native value moves -----

    method MoveNativeIntoVault(caller: Address, amount: nat) returns (err: Option<RailError>)
      modifies this`balance
      ensures err == if At(old(balance), (NATIVE, caller)) < amount then Some(FundsShort) else None
      ensures err.None? ==>
                balance == Credit(Debit(old(balance), (NATIVE, caller), amount), (NATIVE, VAULT), amount)
    {
      if At(balance, (NATIVE, caller)) < amount {
        return Some(FundsShort);
      }
      balance := Debit(balance, (NATIVE, caller), amount);
      balance := Credit(balance, (NATIVE, VAULT), amount);
      return None;
    }

    method MoveNativeOutOfVault(recipient: Address, amount: nat) returns (err: Option<RailError>)
      modifies this`balance
      ensures err == if At(old(balance), (NATIVE, VAULT)) < amount then Some(CustodyUnbacked) else None
      ensures err.None? ==>
                balance == Credit(Debit(old(balance), (NATIVE, VAULT), amount), (NATIVE, recipient), amount)
    {
      if At(balance, (NATIVE, VAULT)) < amount {
        return Some(CustodyUnbacked);
      }
      balance := Debit(balance, (NATIVE, VAULT), amount);
      balance := Credit(balance, (NATIVE, recipient), amount);
      return None;
    }

    /** How much native value this call brought: the vault's balance beyond both pots, signed. */
    method DeliveredNative() returns (n: int)
      ensures n == Surplus(Snapshot(), NATIVE)
    {
      NativeAssetOnly(NATIVE);
      var tracked := At(settleVault, NATIVE_ASSET);
      tracked := tracked + At(custody, NATIVE_ASSET);
      n := At(balance, (NATIVE, VAULT)) - tracked;
    }

    // ----- custody accounting -----

    method RecordCustodyIn(asset: Word, amount: nat)
      modifies this`custody
      ensures custody == Credit(old(custody), asset, amount)
    {
      var before := At(custody, asset);
      custody := custody[asset := before + amount];
    }

    method RecordCustodyOut(asset: Word, amount: nat) returns (err: Option<RailError>)
      modifies this`custody
      ensures err == if At(old(custody), asset) < amount then Some(CustodyUnbacked) else None
      ensures err.None? ==> custody == Debit(old(custody), asset, amount)
    {
      var held := At(custody, asset);
      if held < amount {
        return Some(CustodyUnbacked);
      }
      custody := custody[asset := held - amount];
      return None;
    }

    // ----- terminal ERC-20 settlements -----

    /** balanceOf before, transferFrom, balanceOf after; the vault must have received the amount. */
    method PullERC20Terminal(token: Token, from: Address, amount: nat, pull: Pull) returns (err: Option<RailError>)
      requires from != VAULT
      modifies this`balance
      ensures err == PullRefusal(old(balance), token, from, amount, pull)
      ensures err.None? ==> balance == AfterPull(old(balance), token, from, pull)
    {
      var before := At(balance, (token, VAULT));
      if pull.PullRefused? || pull.taken > At(balance, (token, from)) {
        return Some(ERC20TransferFailed);
      }
      balance := Debit(balance, (token, from), pull.taken);
      balance := Credit(balance, (token, VAULT), pull.delivered);
      var after := At(balance, (token, VAULT));
      if after - before < amount {
        return Some(ERC20UnderDelivered);
      }
      return None;
    }

    method PushERC20Terminal(token: Token, to: Address, amount: nat, push: Push) returns (err: Option<RailError>)
      modifies this`balance
      ensures err == PushRefusal(old(balance), token, amount, push)
      ensures err.None? ==> balance == AfterPush(old(balance), token, to, amount, push)
    {
      if push.PushRefused? || amount > At(balance, (token, VAULT)) {
        return Some(ERC20TransferFailed);
      }
      balance := Debit(balance, (token, VAULT), amount);
      balance := Credit(balance, (token, to), push.received);
      return None;
    }

    // ----- Export -----

    method MarkClaimWritten(id: Word, height: nat)
      modifies this`written
      ensures written == old(written)[id := MarkFor(height)]
    {
      written := written[id := (height + 1) % U64];
    }

    method MarkClaimConsumed(id: Word, height: nat)
      modifies this`consumed
      ensures consumed == old(consumed)[id := MarkFor(height)]
    {
      consumed := consumed[id := (height + 1) % U64];
    }

    /** The lock's Phase-A record callback: replay guard, mark, stage. */
    method RecordExport(ctx: Ctx, claim: seq<byte>) returns (err: Option<RailError>)
      modifies this`written, this`staged
      ensures err == if ctx.claimID in Marked(old(written)) then Some(ExportReplay) else None
      ensures err.None? ==>
                && written == old(written)[ctx.claimID := MarkFor(ctx.height)]
                && staged == old(staged) + [StagedPut(ctx.dChain, ctx.claimID, claim)]
    {
      if At(written, ctx.claimID) != 0 {
        return Some(ExportReplay);
      }
      MarkClaimWritten(ctx.claimID, ctx.height);
      staged := staged + [StagedPut(ctx.dChain, ctx.claimID, claim)];
      return None;
    }

    /** Custody first, the caller's record second, the value last. */
    method LockAsset(ctx: Ctx, caller: Address, asset: Word, assetAddr: Token, amount: nat, claim: seq<byte>, pull: Pull)
      returns (err: Option<RailError>)
      requires caller != VAULT
      modifies this`custody, this`written, this`staged, this`balance
      ensures err == if amount == 0 then Some(BadAmount)
                     else if asset == NATIVE_ASSET && At(old(balance), (NATIVE, caller)) < amount then Some(FundsShort)
                     else if ctx.claimID in Marked(old(written)) then Some(ExportReplay)
                     else if asset == NATIVE_ASSET then None
                     else PullRefusal(old(balance), assetAddr, caller, amount, pull)
      ensures err.None? ==>
                && custody == Credit(old(custody), asset, amount)
                && written == old(written)[ctx.claimID := MarkFor(ctx.height)]
                && staged == old(staged) + [StagedPut(ctx.dChain, ctx.claimID, claim)]
                && balance == if asset == NATIVE_ASSET
                              then Credit(Debit(old(balance), (NATIVE, caller), amount), (NATIVE, VAULT), amount)
                              else AfterPull(old(balance), assetAddr, caller, pull)
    {
      if amount == 0 {
        return Some(BadAmount);
      }
      if asset == NATIVE_ASSET && At(balance, (NATIVE, caller)) < amount {
        return Some(FundsShort);
      }
      RecordCustodyIn(asset, amount);
      err := RecordExport(ctx, claim);
      if err.Some? {
        return;
      }
      if asset == NATIVE_ASSET {
        err := MoveNativeIntoVault(caller, amount);
        return;
      }
      err := PullERC20Terminal(assetAddr, caller, amount, pull);
    }

    method Export(ctx: Ctx, t: Transfer, pull: Pull) returns (r: Result<(Word, nat), RailError>)
      requires t.owner != VAULT
      modifies this`custody, this`written, this`staged, this`balance, this`exports
      ensures r.Err? <==> ExportRefusal(old(Snapshot()), ctx, t, pull).Some?
      ensures r.Err? ==> Some(r.error) == ExportRefusal(old(Snapshot()), ctx, t, pull)
      ensures r.Ok? ==> r.value == (ctx.claimID, t.amount) && Snapshot() == Exported(old(Snapshot()), ctx, t, pull)
    {
      hide Marked, MarkFor, Credit, Debit, AfterPull, PullRefusal;
      if !ctx.memory {
        return Err(NoAtomicMemory);
      }
      if t.amount == 0 {
        return Err(BadAmount);
      }
      var beneficiary := t.beneficiary;
      if beneficiary == Zeros(20) {
        beneficiary := t.owner;
      }
      if ctx.dChain == NO_CHAIN {
        return Err(NoAtomicMemory);
      }
      var locked := t.amount;
      var err := LockAsset(ctx, t.owner, t.asset, t.assetAddr, t.amount,
                           EncodeClaim(Claim(beneficiary, t.asset, locked)), pull);
      if err.Some? {
        return Err(err.value);
      }
      exports := exports + [t];
      return Ok((ctx.claimID, locked));
    }

    // ----- Import -----

    /** Decode the carried bytes, refuse a non-canonical or worthless claim, declare the consumption. */
    method BindImportObject(id: Word, claim: seq<byte>) returns (r: Result<Claim, RailError>)
      modifies this`declared
      ensures r == match DecodeClaim(claim)
                   case None => Err(ImportMalformed)
                   case Some(rec) => if rec.amount == 0 then Err(ImportAmount) else Ok(rec)
      ensures r.Ok? ==> declared == old(declared) + [Declaration(id, claim)]
    {
      var rec := DecodeClaim(claim);
      if rec.None? {
        return Err(ImportMalformed);
      }
      if rec.value.amount == 0 {
        return Err(ImportAmount);
      }
      declared := declared + [Declaration(id, claim)];
      return Ok(rec.value);
    }

    /** The payout: the only place the history of payments is written. */
    method CreditAsset(rec: Claim, push: Push) returns (err: Option<RailError>)
      modifies this`custody, this`balance, this`paid
      ensures err == CreditRefusal(old(custody), old(balance), rec, push)
      ensures err.None? ==>
                && custody == Debit(old(custody), rec.asset, rec.amount)
                && balance == AfterCredit(old(balance), rec, push)
                && paid == Credit(old(paid), (rec.beneficiary, rec.asset), rec.amount)
    {
      err := RecordCustodyOut(rec.asset, rec.amount);
      if err.Some? {
        return;
      }
      if rec.asset == NATIVE_ASSET {
        err := MoveNativeOutOfVault(rec.beneficiary, rec.amount);
      } else {
        err := PushERC20Terminal(AssetAddress(rec.asset), rec.beneficiary, rec.amount, push);
      }
      if err.None? {
        paid := Credit(paid, (rec.beneficiary, rec.asset), rec.amount);
      }
    }

    method Import(ctx: Ctx, c: ClaimArg, push: Push) returns (r: Result<nat, RailError>)
      modifies this`declared, this`consumed, this`staged, this`custody, this`balance, this`paid
      ensures r.Err? <==> ImportRefusal(old(Snapshot()), ctx, c, push).Some?
      ensures r.Err? ==> Some(r.error) == ImportRefusal(old(Snapshot()), ctx, c, push)
      ensures r.Ok? ==>
                && Snapshot() == Imported(old(Snapshot()), ctx, c, push)
                && r.value == DecodeClaim(c.claim).value.amount
    {
      hide Marked, MarkFor, DecodeClaim, Credit, Debit, AfterCredit, CreditRefusal;
      if !ctx.memory {
        return Err(NoAtomicMemory);
      }
      if ctx.dChain == NO_CHAIN {
        return Err(NoAtomicMemory);
      }
      var bound := BindImportObject(c.id, c.claim);
      if bound.Err? {
        return Err(bound.error);
      }
      var rec := bound.value;
      if rec.asset != c.asset {
        return Err(ImportAsset);
      }
      if rec.beneficiary != c.beneficiary {
        return Err(ImportBeneficiary);
      }
      var err := ConsumeAndCredit(ctx, c.id, rec, push);
      return if err.Some? then Err(err.value) else Ok(rec.amount);
    }

    /** The replay guard, the mark, the staged removal, and the payout last. */
    method ConsumeAndCredit(ctx: Ctx, id: Word, rec: Claim, push: Push) returns (err: Option<RailError>)
      modifies this`consumed, this`staged, this`custody, this`balance, this`paid
      ensures err == if id in Marked(old(consumed)) then Some(ImportReplay)
                     else CreditRefusal(old(custody), old(balance), rec, push)
      ensures err.None? ==>
                && consumed == old(consumed)[id := MarkFor(ctx.height)]
                && staged == old(staged) + [StagedRemove(ctx.dChain, id)]
                && custody == Debit(old(custody), rec.asset, rec.amount)
      ensures err.None? ==>
                && balance == AfterCredit(old(balance), rec, push)
                && paid == Credit(old(paid), (rec.beneficiary, rec.asset), rec.amount)
    {
      if At(consumed, id) != 0 {
        return Some(ImportReplay);
      }
      MarkClaimConsumed(id, ctx.height);
      staged := staged + [StagedRemove(ctx.dChain, id)];
      err := CreditAsset(rec, push);
    }

    // ----- the depositor pot and the operator seed -----

    method Deposit(caller: Address, t: Token, amount: nat, pull: Pull) returns (err: Option<RailError>)
      requires caller != VAULT
      modifies this`entered, this`claims, this`settleVault, this`balance
      ensures err == DepositRefusal(old(Snapshot()), caller, t, amount, pull)
      ensures err.None? ==> Snapshot() == Deposited(old(Snapshot()), caller, t, amount, pull)
    {
      hide Credit, Debit, AfterPull, PullRefusal;
      if amount == 0 {
        return Some(BadAmount);
      }
      if AssetID(t) in halted {
        return Some(AssetHalted);
      }
      var free := EnterCustody();
      if !free {
        return Some(CustodyReentrant);
      }
      err := DepositEntered(caller, t, amount, pull);
      ExitCustody();
    }

    /** The deposit inside the guard. */
    method DepositEntered(caller: Address, t: Token, amount: nat, pull: Pull) returns (err: Option<RailError>)
      requires caller != VAULT
      modifies this`claims, this`settleVault, this`balance
      ensures err == if t == NATIVE then if Surplus(old(Snapshot()), NATIVE) < amount then Some(DepositShort) else None
                     else PullRefusal(old(balance), t, caller, amount, pull)
      ensures err.None? ==>
                && claims == Credit(old(claims), (caller, AssetID(t)), amount)
                && settleVault == Credit(old(settleVault), AssetID(t), amount)
                && balance == if t == NATIVE then old(balance) else AfterPull(old(balance), t, caller, pull)
    {
      var a := AssetID(t);
      NativeAssetOnly(t);
      if a == NATIVE_ASSET {
        var delivered := DeliveredNative();
        if delivered < 0 || delivered < amount {
          return Some(DepositShort);
        }
        RecordDeposit(caller, a, amount);
        return None;
      }
      RecordDeposit(caller, a, amount);
      err := PullERC20Terminal(t, caller, amount, pull);
    }

    method RecordDeposit(caller: Address, a: Word, amount: nat)
      modifies this`claims, this`settleVault
      ensures claims == Credit(old(claims), (caller, a), amount)
      ensures settleVault == Credit(old(settleVault), a, amount)
    {
      claims := Credit(claims, (caller, a), amount);
      settleVault := Credit(settleVault, a, amount);
    }

    method Withdraw(caller: Address, t: Token, want: nat, push: Push) returns (r: Result<nat, RailError>)
      modifies this`entered, this`claims, this`settleVault, this`balance
      ensures r.Err? <==> WithdrawRefusal(old(Snapshot()), caller, t, want, push).Some?
      ensures r.Err? ==> Some(r.error) == WithdrawRefusal(old(Snapshot()), caller, t, want, push)
      ensures r.Ok? ==>
                && r.value == Realized(old(claims), old(settleVault), caller, t, want)
                && Snapshot() == Withdrawn(old(Snapshot()), caller, t, want, push)
    {
      hide Credit, Debit, AfterClaimPaid, ClaimPayRefusal, Realized;
      var free := EnterCustody();
      if !free {
        return Err(CustodyReentrant);
      }
      r := WithdrawEntered(caller, t, want, push);
      ExitCustody();
    }

    /** The withdrawal inside the guard. */
    method WithdrawEntered(caller: Address, t: Token, want: nat, push: Push) returns (r: Result<nat, RailError>)
      modifies this`claims, this`settleVault, this`balance
      ensures var n := Realized(old(claims), old(settleVault), caller, t, want);
              && r == (if n == 0 then Ok(0)
                       else match ClaimPayRefusal(old(balance), t, n, push) case Some(e) => Err(e) case None => Ok(n))
              && (r.Ok? && n == 0 ==> claims == old(claims) && settleVault == old(settleVault) && balance == old(balance))
              && (r.Ok? && n > 0 ==> claims == Debit(old(claims), (caller, AssetID(t)), n))
              && (r.Ok? && n > 0 ==> settleVault == Debit(old(settleVault), AssetID(t), n))
              && (r.Ok? && n > 0 ==> balance == AfterClaimPaid(old(balance), t, caller, n, push))
    {
      var a := AssetID(t);
      var claim := At(claims, (caller, a));
      var realized := want;
      if realized > claim {
        realized := claim;
      }
      var held := At(settleVault, a);
      if realized > held {
        realized := held;
      }
      if realized <= 0 {
        return Ok(0);
      }
      claims := claims[(caller, a) := claim - realized];
      settleVault := settleVault[a := held - realized];
      var err := PayClaim(t, caller, realized, push);
      return if err.Some? then Err(err.value) else Ok(realized);
    }

    method PayClaim(t: Token, to: Address, amount: nat, push: Push) returns (err: Option<RailError>)
      modifies this`balance
      ensures err == ClaimPayRefusal(old(balance), t, amount, push)
      ensures err.None? ==> balance == AfterClaimPaid(old(balance), t, to, amount, push)
    {
      NativeAssetOnly(t);
      if AssetID(t) == NATIVE_ASSET {
        if At(balance, (NATIVE, VAULT)) < amount {
          return Some(ClaimShort);
        }
        balance := Debit(balance, (NATIVE, VAULT), amount);
        balance := Credit(balance, (NATIVE, to), amount);
        return None;
      }
      err := PushERC20Terminal(t, to, amount, push);
    }

    method Seed(governor: Option<Address>, caller: Address, t: Token, amount: nat, pull: Pull)
      returns (err: Option<RailError>)
      requires caller != VAULT
      modifies this`entered, this`custody, this`seeded, this`balance
      ensures err == SeedRefusal(old(Snapshot()), governor, caller, t, amount, pull)
      ensures err.None? ==> Snapshot() == Seeded(old(Snapshot()), governor, caller, t, amount, pull)
    {
      hide Credit, Debit, AfterPull, PullRefusal;
      if governor.None? {
        return Some(NoGovernor);
      }
      if caller != governor.value {
        return Some(Unauthorized);
      }
      if amount == 0 {
        return Some(BadAmount);
      }
      var free := EnterCustody();
      if !free {
        return Some(CustodyReentrant);
      }
      err := ReceiveOperatorValue(caller, t, amount, pull);
      ExitCustody();
    }

    /** Records everything undistributed of a native seed, the requested amount of an ERC-20 one. */
    method ReceiveOperatorValue(caller: Address, t: Token, amount: nat, pull: Pull) returns (err: Option<RailError>)
      requires caller != VAULT
      modifies this`custody, this`seeded, this`balance
      ensures err == if t == NATIVE then if Surplus(old(Snapshot()), NATIVE) < amount then Some(SeedUndelivered) else None
                     else PullRefusal(old(balance), t, caller, amount, pull)
      ensures err.None? ==> (var n: nat := if t == NATIVE then Surplus(old(Snapshot()), NATIVE) else amount;
                             && custody == Credit(old(custody), AssetID(t), n)
                             && seeded == Credit(old(seeded), AssetID(t), n))
      ensures err.None? ==>
                balance == if t == NATIVE then old(balance) else AfterPull(old(balance), t, caller, pull)
    {
      var a := AssetID(t);
      NativeAssetOnly(t);
      if a == NATIVE_ASSET {
        var delivered := DeliveredNative();
        if delivered < 0 || delivered < amount {
          return Some(SeedUndelivered);
        }
        RecordSeed(a, delivered);
        return None;
      }
      RecordSeed(a, amount);
      err := PullERC20Terminal(t, caller, amount, pull);
    }

    method RecordSeed(a: Word, amount: nat)
      modifies this`custody, this`seeded
      ensures custody == Credit(old(custody), a, amount)
      ensures seeded == Credit(old(seeded), a, amount)
    {
      custody := Credit(custody, a, amount);
      seeded := Credit(seeded, a, amount);
    }
  }
}

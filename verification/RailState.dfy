/** The 0x9999 vault as a value: balances, pots, crossing sets and the staged log, with the
    meaning of every call that moves value through it. */
module RailState {
  import opened Bytes
  import opened Staging
  import opened Sums
  import opened Wire
  import opened Wrappers

  /** The zero address stands for the native token; any other address for an ERC-20. */
  type Token = Address

  const NATIVE: Token := Zeros(20)
  const NATIVE_ASSET: Word := ZERO_WORD
  const NO_CHAIN: Word := ZERO_WORD
  const VAULT: Address := Zeros(18) + [0x99, 0x99]

  /** The injective asset id of a token: its address, left-padded to a word. */
  function AssetID(t: Token): Word {
    Zeros(12) + t
  }

  function AssetAddress(a: Word): Token {
    a[12..32]
  }

  lemma AssetIDRoundTrip(t: Token, a: Word)
    ensures AssetAddress(AssetID(t)) == t
    ensures a == AssetID(AssetAddress(a)) <==> a[..12] == Zeros(12)
    ensures AssetID(t) == NATIVE_ASSET <==> t == NATIVE
  {
    assert AssetID(t)[12..32] == t;
    assert a == a[..12] + a[12..32];
    assert AssetID(AssetAddress(a))[..12] == Zeros(12);
    assert NATIVE_ASSET[12..32] == NATIVE;
    assert AssetID(NATIVE) == NATIVE_ASSET;
  }

  lemma NativeAssetOnly(t: Token)
    ensures AssetID(t) == NATIVE_ASSET <==> t == NATIVE
  {
    AssetIDRoundTrip(t, NATIVE_ASSET);
  }

  /** One receipt log: this block consumed claim `id`, whose bytes are `claim`. */
  datatype Declaration = Declaration(id: Word, claim: seq<byte>)

  /** Everything a transaction's revert rolls back. written and consumed: the marks crossings leave, by claim id.
      entered: the custody guard. halted: assets whose deposits are stopped. seeded, paid and exports are history:
      what the operator put in, what the payout ever moved out of the vault for a claim, by payee and asset, and
      the transfers exported, as they were asked for. */
  datatype Evm = Evm(
    balance: map<(Token, Address), nat>,
    settleVault: map<Word, nat>,
    custody: map<Word, nat>,
    claims: map<(Address, Word), nat>,
    written: map<Word, nat>,
    consumed: map<Word, nat>,
    staged: seq<StagedOp>,
    declared: seq<Declaration>,
    entered: bool,
    halted: set<Word>,
    seeded: map<Word, nat>,
    paid: map<(Address, Word), nat>,
    exports: seq<Transfer>)

  /** An untouched rail over the given balances. */
  function Untouched(balance: map<(Token, Address), nat>): Evm {
    Evm(balance, map[], map[], map[], map[], map[], [], [], false, {}, map[], map[], [])
  }

  function Holding(e: Evm, t: Token): nat {
    At(e.balance, (t, VAULT))
  }

  /** What the vault holds of a token beyond its two pots. */
  function Surplus(e: Evm, t: Token): int {
    Holding(e, t) - At(e.settleVault, AssetID(t)) - At(e.custody, AssetID(t))
  }

  // ----- what the host and the token contracts answer -----

  /** memory: the host wired shared memory. dChain: the D peer, NO_CHAIN when there is none.
      claimID: the id derived for this call. height: the block's number. */
  datatype Ctx = Ctx(memory: bool, dChain: Word, claimID: Word, height: nat)

  /** transferFrom: refused, or `taken` left the payer and `delivered` reached the vault. */
  datatype Pull = PullRefused | Pulled(taken: nat, delivered: nat)

  /** transfer out of the vault: refused, or `received` reached the payee. */
  datatype Push = PushRefused | Pushed(received: nat)

  datatype RailError =
    | NoAtomicMemory | BadAmount | FundsShort | ExportReplay | ERC20TransferFailed | ERC20UnderDelivered
    | ImportMalformed | ImportAmount | ImportAsset | ImportBeneficiary | ImportReplay | CustodyUnbacked
    | DepositShort | ClaimShort | SeedUndelivered | AssetHalted | CustodyReentrant | NoGovernor | Unauthorized

  datatype Transfer = Transfer(owner: Address, beneficiary: Address, asset: Word, assetAddr: Token, amount: nat)

  datatype ClaimArg = ClaimArg(id: Word, asset: Word, beneficiary: Address, claim: seq<byte>)

  function Debit<K>(b: map<K, nat>, k: K, n: nat): map<K, nat>
    requires n <= At(b, k)
  {
    b[k := At(b, k) - n]
  }

  function Credit<K>(b: map<K, nat>, k: K, n: nat): map<K, nat> {
    b[k := At(b, k) + n]
  }

  function PullRefusal(b: map<(Token, Address), nat>, t: Token, from: Address, amount: nat, pull: Pull)
    : Option<RailError>
  {
    if pull.PullRefused? || pull.taken > At(b, (t, from)) then Some(ERC20TransferFailed)
    else if pull.delivered < amount then Some(ERC20UnderDelivered)
    else None
  }

  function AfterPull(b: map<(Token, Address), nat>, t: Token, from: Address, pull: Pull): map<(Token, Address), nat>
    requires pull.Pulled? && pull.taken <= At(b, (t, from))
  {
    Credit(Debit(b, (t, from), pull.taken), (t, VAULT), pull.delivered)
  }

  function PushRefusal(b: map<(Token, Address), nat>, t: Token, amount: nat, push: Push): Option<RailError> {
    if push.PushRefused? || amount > At(b, (t, VAULT)) then Some(ERC20TransferFailed) else None
  }

  function AfterPush(b: map<(Token, Address), nat>, t: Token, to: Address, amount: nat, push: Push)
    : map<(Token, Address), nat>
    requires push.Pushed? && amount <= At(b, (t, VAULT))
  {
    Credit(Debit(b, (t, VAULT), amount), (t, to), push.received)
  }

  // ----- the marks that a claim crossed -----

  /** The mark a crossing leaves: one more than the block's number, as a uint64. No mark and a zero mark are the
      same empty word. */
  function MarkFor(height: nat): nat {
    (height + 1) % U64
  }

  /** The ids a book of marks refuses. */
  function Marked(marks: map<Word, nat>): set<Word> {
    set id | id in marks && marks[id] != 0
  }

  lemma MarkIsEmptyIff(height: nat)
    requires height < U64
    ensures MarkFor(height) == 0 <==> height == U64 - 1
  {
  }

  /** A mark adds its id to those refused exactly when the height is not the last uint64. */
  lemma MarkAddsIff(marks: map<Word, nat>, id: Word, height: nat)
    requires height < U64 && id !in Marked(marks)
    ensures Marked(marks[id := MarkFor(height)]) == Marked(marks) + (if height == U64 - 1 then {} else {id})
  {
    MarkIsEmptyIff(height);
  }

  // ----- Export -----

  function BeneficiaryOf(t: Transfer): Address {
    if t.beneficiary == Zeros(20) then t.owner else t.beneficiary
  }

  function ExportClaim(t: Transfer): seq<byte> {
    EncodeClaim(Claim(BeneficiaryOf(t), t.asset, t.amount))
  }

  function ExportRefusal(e: Evm, ctx: Ctx, t: Transfer, pull: Pull): Option<RailError> {
    if !ctx.memory then Some(NoAtomicMemory)
    else if t.amount == 0 then Some(BadAmount)
    else if ctx.dChain == NO_CHAIN then Some(NoAtomicMemory)
    else if t.asset == NATIVE_ASSET && At(e.balance, (NATIVE, t.owner)) < t.amount then Some(FundsShort)
    else if ctx.claimID in Marked(e.written) then Some(ExportReplay)
    else if t.asset == NATIVE_ASSET then None
    else PullRefusal(e.balance, t.assetAddr, t.owner, t.amount, pull)
  }

  function Exported(e: Evm, ctx: Ctx, t: Transfer, pull: Pull): Evm
    requires ExportRefusal(e, ctx, t, pull).None?
  {
    e.(custody := Credit(e.custody, t.asset, t.amount),
       written := e.written[ctx.claimID := MarkFor(ctx.height)],
       staged := e.staged + [StagedPut(ctx.dChain, ctx.claimID, ExportClaim(t))],
       exports := e.exports + [t],
       balance := if t.asset == NATIVE_ASSET
                  then Credit(Debit(e.balance, (NATIVE, t.owner), t.amount), (NATIVE, VAULT), t.amount)
                  else AfterPull(e.balance, t.assetAddr, t.owner, pull))
  }

  // ----- Import -----

  function ImportRefusal(e: Evm, ctx: Ctx, c: ClaimArg, push: Push): Option<RailError> {
    if !ctx.memory || ctx.dChain == NO_CHAIN then Some(NoAtomicMemory)
    else match DecodeClaim(c.claim)
      case None => Some(ImportMalformed)
      case Some(rec) =>
        if rec.amount == 0 then Some(ImportAmount)
        else if rec.asset != c.asset then Some(ImportAsset)
        else if rec.beneficiary != c.beneficiary then Some(ImportBeneficiary)
        else if c.id in Marked(e.consumed) then Some(ImportReplay)
        else CreditRefusal(e.custody, e.balance, rec, push)
  }

  function CreditRefusal(custody: map<Word, nat>, b: map<(Token, Address), nat>, rec: Claim, push: Push)
    : Option<RailError>
  {
    if At(custody, rec.asset) < rec.amount then Some(CustodyUnbacked)
    else if rec.asset == NATIVE_ASSET then if At(b, (NATIVE, VAULT)) < rec.amount then Some(CustodyUnbacked) else None
    else PushRefusal(b, AssetAddress(rec.asset), rec.amount, push)
  }

  function AfterCredit(b: map<(Token, Address), nat>, rec: Claim, push: Push): map<(Token, Address), nat>
    requires rec.asset != NATIVE_ASSET ==> push.Pushed?
    requires rec.amount <= At(b, (if rec.asset == NATIVE_ASSET then NATIVE else AssetAddress(rec.asset), VAULT))
  {
    if rec.asset == NATIVE_ASSET then
      Credit(Debit(b, (NATIVE, VAULT), rec.amount), (NATIVE, rec.beneficiary), rec.amount)
    else AfterPush(b, AssetAddress(rec.asset), rec.beneficiary, rec.amount, push)
  }

  function Imported(e: Evm, ctx: Ctx, c: ClaimArg, push: Push): Evm
    requires ImportRefusal(e, ctx, c, push).None?
  {
    var rec := DecodeClaim(c.claim).value;
    e.(declared := e.declared + [Declaration(c.id, c.claim)],
       consumed := e.consumed[c.id := MarkFor(ctx.height)],
       staged := e.staged + [StagedRemove(ctx.dChain, c.id)],
       custody := Debit(e.custody, rec.asset, rec.amount),
       paid := Credit(e.paid, (rec.beneficiary, rec.asset), rec.amount),
       balance := AfterCredit(e.balance, rec, push))
  }

  // ----- Deposit, Withdraw, Seed -----

  /** The host moves the call's value into the vault before the precompile runs. */
  function WithValue(e: Evm, caller: Address, value: nat): Evm
    requires value <= At(e.balance, (NATIVE, caller))
  {
    e.(balance := Credit(Debit(e.balance, (NATIVE, caller), value), (NATIVE, VAULT), value))
  }

  function DepositRefusal(e: Evm, caller: Address, t: Token, amount: nat, pull: Pull): Option<RailError> {
    if amount == 0 then Some(BadAmount)
    else if AssetID(t) in e.halted then Some(AssetHalted)
    else if e.entered then Some(CustodyReentrant)
    else if t == NATIVE then if Surplus(e, NATIVE) < amount then Some(DepositShort) else None
    else PullRefusal(e.balance, t, caller, amount, pull)
  }

  function Deposited(e: Evm, caller: Address, t: Token, amount: nat, pull: Pull): Evm
    requires DepositRefusal(e, caller, t, amount, pull).None?
  {
    var a := AssetID(t);
    e.(claims := Credit(e.claims, (caller, a), amount),
       settleVault := Credit(e.settleVault, a, amount),
       balance := if t == NATIVE then e.balance else AfterPull(e.balance, t, caller, pull))
  }

  function Realized(claims: map<(Address, Word), nat>, pot: map<Word, nat>, caller: Address, t: Token, want: nat): nat {
    var claim, held := At(claims, (caller, AssetID(t))), At(pot, AssetID(t));
    var capped := if want > claim then claim else want;
    if capped > held then held else capped
  }

  function WithdrawRefusal(e: Evm, caller: Address, t: Token, want: nat, push: Push): Option<RailError> {
    var n := Realized(e.claims, e.settleVault, caller, t, want);
    if e.entered then Some(CustodyReentrant)
    else if n == 0 then None
    else ClaimPayRefusal(e.balance, t, n, push)
  }

  function ClaimPayRefusal(b: map<(Token, Address), nat>, t: Token, n: nat, push: Push): Option<RailError> {
    if t != NATIVE then PushRefusal(b, t, n, push)
    else if At(b, (NATIVE, VAULT)) < n then Some(ClaimShort)
    else None
  }

  function AfterClaimPaid(b: map<(Token, Address), nat>, t: Token, to: Address, n: nat, push: Push)
    : map<(Token, Address), nat>
    requires n <= At(b, (t, VAULT)) && (t != NATIVE ==> push.Pushed?)
  {
    if t == NATIVE then Credit(Debit(b, (NATIVE, VAULT), n), (NATIVE, to), n) else AfterPush(b, t, to, n, push)
  }

  function Withdrawn(e: Evm, caller: Address, t: Token, want: nat, push: Push): Evm
    requires WithdrawRefusal(e, caller, t, want, push).None?
  {
    var n, a := Realized(e.claims, e.settleVault, caller, t, want), AssetID(t);
    if n == 0 then e
    else
      e.(claims := Debit(e.claims, (caller, a), n),
         settleVault := Debit(e.settleVault, a, n),
         balance := AfterClaimPaid(e.balance, t, caller, n, push))
  }

  /** `governor` is the network's fee controller, if it has one. */
  function SeedRefusal(e: Evm, governor: Option<Address>, caller: Address, t: Token, amount: nat, pull: Pull)
    : Option<RailError>
  {
    if governor.None? then Some(NoGovernor)
    else if caller != governor.value then Some(Unauthorized)
    else if amount == 0 then Some(BadAmount)
    else if e.entered then Some(CustodyReentrant)
    else if t == NATIVE then if Surplus(e, NATIVE) < amount then Some(SeedUndelivered) else None
    else PullRefusal(e.balance, t, caller, amount, pull)
  }

  /** A native seed records everything undistributed, an ERC-20 seed the requested amount. */
  function Seeded(e: Evm, governor: Option<Address>, caller: Address, t: Token, amount: nat, pull: Pull): Evm
    requires SeedRefusal(e, governor, caller, t, amount, pull).None?
  {
    var a := AssetID(t);
    var n: nat := if t == NATIVE then Surplus(e, NATIVE) else amount;
    e.(custody := Credit(e.custody, a, n),
       seeded := Credit(e.seeded, a, n),
       balance := if t == NATIVE then e.balance else AfterPull(e.balance, t, caller, pull))
  }

  // ----- one call frame: all of it or none of it -----

  datatype Call =
    | Export(ctx: Ctx, t: Transfer, pull: Pull)
    | Import(ctx: Ctx, c: ClaimArg, push: Push)
    | Deposit(caller: Address, token: Token, amount: nat, value: nat, pull: Pull)
    | Withdraw(caller: Address, token: Token, want: nat, push: Push)
    | Seed(governor: Option<Address>, caller: Address, token: Token, amount: nat, value: nat, pull: Pull)
    | Elsewhere(balance: map<(Token, Address), nat>, halted: set<Word>)

  /** What a call must be for the host to make it at all: the vault never calls itself, amounts and heights are
      uint64, and nobody else spends the vault. */
  predicate Callable(e: Evm, c: Call) {
    match c
    case Export(ctx, t, _) => t.owner != VAULT && t.amount < U64 && ctx.height < U64
    case Import(ctx, _, _) => ctx.height < U64
    case Deposit(caller, _, _, v, _) => caller != VAULT && v <= At(e.balance, (NATIVE, caller))
    case Withdraw(caller, _, _, _) => caller != VAULT
    case Seed(_, caller, _, _, v, _) => caller != VAULT && v <= At(e.balance, (NATIVE, caller))
    case Elsewhere(b, _) => forall k :: k in e.balance.Keys + b.Keys && k.1 == VAULT ==> At(b, k) >= At(e.balance, k)
  }

  function Refusal(e: Evm, c: Call): Option<RailError>
    requires Callable(e, c)
  {
    match c
    case Export(ctx, t, pull) => ExportRefusal(e, ctx, t, pull)
    case Import(ctx, arg, push) => ImportRefusal(e, ctx, arg, push)
    case Deposit(who, t, n, v, pull) => DepositRefusal(WithValue(e, who, v), who, t, n, pull)
    case Withdraw(who, t, n, push) => WithdrawRefusal(e, who, t, n, push)
    case Seed(gov, who, t, n, v, pull) => SeedRefusal(WithValue(e, who, v), gov, who, t, n, pull)
    case Elsewhere(_, _) => None
  }

  function Frame(e: Evm, c: Call): Evm
    requires Callable(e, c)
  {
    if Refusal(e, c).Some? then e
    else match c
      case Export(ctx, t, pull) => Exported(e, ctx, t, pull)
      case Import(ctx, arg, push) => Imported(e, ctx, arg, push)
      case Deposit(who, t, n, v, pull) => Deposited(WithValue(e, who, v), who, t, n, pull)
      case Withdraw(who, t, n, push) => Withdrawn(e, who, t, n, push)
      case Seed(gov, who, t, n, v, pull) => Seeded(WithValue(e, who, v), gov, who, t, n, pull)
      case Elsewhere(b, halted) => e.(balance := b, halted := halted)
  }

  /** The export names the token of the asset it moves. */
  predicate NamesItsToken(c: Call) {
    c.Export? ==> c.t.asset == AssetID(c.t.assetAddr)
  }

  /** What both entry points hand to Export: owner and beneficiary the caller, the asset of a currency, and the
      token read back from that asset. */
  function EntryTransfer(caller: Address, currency: Token, amount: nat): Transfer {
    Transfer(caller, caller, AssetID(currency), AssetAddress(AssetID(currency)), amount)
  }

  /** So no entry point makes an export that names another token. */
  lemma EntryPointsNameTheirToken(ctx: Ctx, caller: Address, currency: Token, amount: nat, pull: Pull)
    ensures NamesItsToken(Export(ctx, EntryTransfer(caller, currency, amount), pull))
  {
    AssetIDRoundTrip(currency, AssetID(currency));
  }
}

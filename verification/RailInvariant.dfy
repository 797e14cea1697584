/** What every call frame keeps about the 0x9999 state on its own, before any block is accepted:
    the custody identity, once-only crossings, payments on record, and what moves the vault off its pots. */
module RailInvariant {
  import opened Bytes
  import opened RailState
  import opened Staging
  import opened Sums
  import opened Wire
  import opened Wrappers

  // ----- amounts carried by claims -----

  function AmountIn(claim: seq<byte>, a: Word): nat {
    match DecodeClaim(claim)
    case None => 0
    case Some(c) => if c.asset == a then c.amount else 0
  }

  /** Total of asset `a` over put elements. */
  function PutTotal(es: seq<Element>, a: Word): nat {
    if es == [] then 0 else PutTotal(es[..|es| - 1], a) + AmountIn(es[|es| - 1].value, a)
  }

  /** Total of asset `a` over declared consumptions. */
  function DeclaredTotal(ds: seq<Declaration>, a: Word): nat {
    if ds == [] then 0 else DeclaredTotal(ds[..|ds| - 1], a) + AmountIn(ds[|ds| - 1].claim, a)
  }

  /** The part of a claim that names both payee and asset. */
  function AmountTo(claim: seq<byte>, payee: Address, a: Word): nat {
    match DecodeClaim(claim)
    case None => 0
    case Some(c) => if c.asset == a && c.beneficiary == payee then c.amount else 0
  }

  /** Total of asset `a` over the declared consumptions naming `payee`. */
  function DeclaredTo(ds: seq<Declaration>, payee: Address, a: Word): nat {
    if ds == [] then 0 else DeclaredTo(ds[..|ds| - 1], payee, a) + AmountTo(ds[|ds| - 1].claim, payee, a)
  }

  function Ids(ds: seq<Declaration>): (r: seq<Word>)
    ensures |r| == |ds|
  {
    seq(|ds|, i requires 0 <= i < |ds| => ds[i].id)
  }

  function Keys(es: seq<Element>): (r: seq<Word>)
    ensures |r| == |es|
  {
    seq(|es|, i requires 0 <= i < |es| => es[i].key)
  }

  ghost predicate NoDup(s: seq<Word>) {
    forall i, j :: 0 <= i < j < |s| ==> s[i] != s[j]
  }

  function ToSet(s: seq<Word>): set<Word> {
    set x | x in s
  }

  lemma NoDupAppend(s: seq<Word>, x: Word)
    requires NoDup(s) && x !in ToSet(s)
    ensures NoDup(s + [x]) && ToSet(s + [x]) == ToSet(s) + {x}
  {
  }

  // ----- the local invariant -----

  /** Account balances of one asset in a per-(account, asset) ledger. */
  ghost function HeldWeight(a: Word): ((Address, Word), nat) -> int {
    (k: (Address, Word), n: nat) => if k.1 == a then n else 0
  }

  /** custody = operator seed + exported to D - imported from D, asset by asset. */
  ghost predicate CustodyIdentity(e: Evm, chain: Word) {
    forall a: Word ::
      At(e.custody, a) + DeclaredTotal(e.declared, a) == At(e.seeded, a) + PutTotal(PutsFor(e.staged, chain), a)
  }

  /** Each C->D claim id is staged once and marked; each D->C id is declared, removed and marked once. */
  ghost predicate CrossedOnce(e: Evm, chain: Word) {
    && NoDup(Keys(PutsFor(e.staged, chain))) && ToSet(Keys(PutsFor(e.staged, chain))) == Marked(e.written)
    && RemovesFor(e.staged, chain) == Ids(e.declared)
    && NoDup(Ids(e.declared)) && ToSet(Ids(e.declared)) == Marked(e.consumed)
  }

  /** The depositor pot is the sum of the depositors' claims. */
  ghost predicate DepositsMatch(e: Evm) {
    forall a: Word :: At(e.settleVault, a) == SumMap(e.claims, HeldWeight(a))
  }

  /** What was ever paid out to anyone of any asset is what the consumed claims naming them carry. */
  ghost predicate PaidMatches(e: Evm) {
    && (forall payee: Address, a: Word :: At(e.paid, (payee, a)) == DeclaredTo(e.declared, payee, a))
    && (forall a: Word :: SumMap(e.paid, HeldWeight(a)) == DeclaredTotal(e.declared, a))
  }

  ghost predicate Local(e: Evm, chain: Word) {
    CustodyIdentity(e, chain) && DepositsMatch(e) && PaidMatches(e)
  }

  /** The calls of one network all name the same D peer, or none. */
  predicate OnChain(c: Call, chain: Word) {
    match c
    case Export(ctx, _, _) => ctx.dChain == chain || ctx.dChain == NO_CHAIN
    case Import(ctx, _, _) => ctx.dChain == chain || ctx.dChain == NO_CHAIN
    case _ => true
  }

  /** A crossing leaves a mark unless it happens at the last uint64 height. */
  predicate LeavesMark(c: Call) {
    c.Export? || c.Import? ==> c.ctx.height != U64 - 1
  }

  // ----- Export -----

  lemma StagedPutNext(staged: seq<StagedOp>, chain: Word, id: Word, claim: seq<byte>)
    ensures var es := PutsFor(staged, chain);
            && PutsFor(staged + [StagedPut(chain, id, claim)], chain) == es + [ElementOf(StagedPut(chain, id, claim))]
            && RemovesFor(staged + [StagedPut(chain, id, claim)], chain) == RemovesFor(staged, chain)
            && Keys(es + [ElementOf(StagedPut(chain, id, claim))]) == Keys(es) + [id]
            && forall a: Word ::
                 PutTotal(es + [ElementOf(StagedPut(chain, id, claim))], a) == PutTotal(es, a) + AmountIn(claim, a)
  {
    NextFor(staged, StagedPut(chain, id, claim), chain);
    var es := PutsFor(staged, chain);
    var all := es + [ElementOf(StagedPut(chain, id, claim))];
    assert all[..|all| - 1] == es;
  }

  lemma ExportClaimAmount(t: Transfer, a: Word)
    requires t.amount < U64
    ensures AmountIn(ExportClaim(t), a) == if t.asset == a then t.amount else 0
  {
    ClaimRoundTrip(Claim(BeneficiaryOf(t), t.asset, t.amount));
  }

  lemma ExportKeepsCustody(e: Evm, ctx: Ctx, t: Transfer, pull: Pull, chain: Word)
    requires CustodyIdentity(e, chain) && t.amount < U64 && ctx.dChain == chain
    requires ExportRefusal(e, ctx, t, pull).None?
    ensures CustodyIdentity(Exported(e, ctx, t, pull), chain)
  {
    StagedPutNext(e.staged, chain, ctx.claimID, ExportClaim(t));
    forall a: Word
      ensures var e' := Exported(e, ctx, t, pull);
              At(e'.custody, a) + DeclaredTotal(e'.declared, a) == At(e'.seeded, a) + PutTotal(PutsFor(e'.staged, chain), a)
    {
      ExportClaimAmount(t, a);
    }
  }

  /** An export keeps every id crossed once and marked exactly when its own mark is not the empty word. */
  lemma ExportCrossesOnceIff(e: Evm, ctx: Ctx, t: Transfer, pull: Pull, chain: Word)
    requires CrossedOnce(e, chain) && ctx.dChain == chain && ctx.height < U64
    requires ExportRefusal(e, ctx, t, pull).None?
    ensures CrossedOnce(Exported(e, ctx, t, pull), chain) <==> ctx.height != U64 - 1
  {
    var keys := Keys(PutsFor(e.staged, chain));
    StagedPutNext(e.staged, chain, ctx.claimID, ExportClaim(t));
    NoDupAppend(keys, ctx.claimID);
    MarkAddsIff(e.written, ctx.claimID, ctx.height);
    assert ctx.claimID in ToSet(keys + [ctx.claimID]);
  }

  // ----- Import -----

  lemma StagedRemoveNext(staged: seq<StagedOp>, ds: seq<Declaration>, chain: Word, d: Declaration)
    ensures PutsFor(staged + [StagedRemove(chain, d.id)], chain) == PutsFor(staged, chain)
    ensures RemovesFor(staged + [StagedRemove(chain, d.id)], chain) == RemovesFor(staged, chain) + [d.id]
    ensures Ids(ds + [d]) == Ids(ds) + [d.id]
    ensures forall a: Word :: DeclaredTotal(ds + [d], a) == DeclaredTotal(ds, a) + AmountIn(d.claim, a)
  {
    NextFor(staged, StagedRemove(chain, d.id), chain);
    assert (ds + [d])[..|ds|] == ds;
  }

  lemma ImportKeepsCustody(e: Evm, ctx: Ctx, c: ClaimArg, push: Push, chain: Word)
    requires CustodyIdentity(e, chain) && ctx.dChain == chain && ImportRefusal(e, ctx, c, push).None?
    ensures CustodyIdentity(Imported(e, ctx, c, push), chain)
  {
    StagedRemoveNext(e.staged, e.declared, chain, Declaration(c.id, c.claim));
  }

  /** And so does an import. */
  lemma ImportCrossesOnceIff(e: Evm, ctx: Ctx, c: ClaimArg, push: Push, chain: Word)
    requires CrossedOnce(e, chain) && ctx.dChain == chain && ctx.height < U64
    requires ImportRefusal(e, ctx, c, push).None?
    ensures CrossedOnce(Imported(e, ctx, c, push), chain) <==> ctx.height != U64 - 1
  {
    StagedRemoveNext(e.staged, e.declared, chain, Declaration(c.id, c.claim));
    NoDupAppend(Ids(e.declared), c.id);
    MarkAddsIff(e.consumed, c.id, ctx.height);
    assert c.id in ToSet(Ids(e.declared) + [c.id]);
  }

  lemma ImportKeepsPaid(e: Evm, ctx: Ctx, c: ClaimArg, push: Push)
    requires PaidMatches(e) && ImportRefusal(e, ctx, c, push).None?
    ensures PaidMatches(Imported(e, ctx, c, push))
  {
    PaidNext(e, Imported(e, ctx, c, push), Declaration(c.id, c.claim), DecodeClaim(c.claim).value);
  }

  lemma {:induction false} DeclaredNext(ds: seq<Declaration>, d: Declaration, payee: Address, a: Word)
    ensures DeclaredTo(ds + [d], payee, a) == DeclaredTo(ds, payee, a) + AmountTo(d.claim, payee, a)
    ensures DeclaredTotal(ds + [d], a) == DeclaredTotal(ds, a) + AmountIn(d.claim, a)
  {
    assert (ds + [d])[..|ds|] == ds;
  }

  lemma {:induction false} PaidToNext(
    paid: map<(Address, Word), nat>, ds: seq<Declaration>, d: Declaration, rec: Claim, payee: Address, a: Word)
    requires At(paid, (payee, a)) == DeclaredTo(ds, payee, a) && DecodeClaim(d.claim) == Some(rec)
    ensures At(Credit(paid, (rec.beneficiary, rec.asset), rec.amount), (payee, a)) == DeclaredTo(ds + [d], payee, a)
  {
    DeclaredNext(ds, d, payee, a);
  }

  lemma {:induction false} PaidTotalNext(
    paid: map<(Address, Word), nat>, ds: seq<Declaration>, d: Declaration, rec: Claim, a: Word)
    requires SumMap(paid, HeldWeight(a)) == DeclaredTotal(ds, a) && DecodeClaim(d.claim) == Some(rec)
    ensures SumMap(Credit(paid, (rec.beneficiary, rec.asset), rec.amount), HeldWeight(a)) == DeclaredTotal(ds + [d], a)
  {
    var k := (rec.beneficiary, rec.asset);
    DeclaredNext(ds, d, rec.beneficiary, a);
    SumMapInsert<(Address, Word), nat>(paid, HeldWeight(a), k, At(paid, k) + rec.amount);
  }

  lemma {:induction false} PaidNext(e: Evm, e': Evm, d: Declaration, rec: Claim)
    requires PaidMatches(e) && DecodeClaim(d.claim) == Some(rec) && e'.declared == e.declared + [d]
    requires e'.paid == Credit(e.paid, (rec.beneficiary, rec.asset), rec.amount)
    ensures PaidMatches(e')
  {
    hide DeclaredTo, DeclaredTotal, Credit, SumMap, HeldWeight, DecodeClaim;
    forall payee: Address, a: Word
      ensures At(e'.paid, (payee, a)) == DeclaredTo(e'.declared, payee, a)
    {
      assert At(e.paid, (payee, a)) == DeclaredTo(e.declared, payee, a);
      PaidToNext(e.paid, e.declared, d, rec, payee, a);
    }
    forall a: Word
      ensures SumMap(e'.paid, HeldWeight(a)) == DeclaredTotal(e'.declared, a)
    {
      assert SumMap(e.paid, HeldWeight(a)) == DeclaredTotal(e.declared, a);
      PaidTotalNext(e.paid, e.declared, d, rec, a);
    }
  }

  // ----- the depositor pot -----

  lemma DepositorPotMoves(e: Evm, e': Evm, k: (Address, Word), claim: nat, pot: nat)
    requires DepositsMatch(e) && e'.claims == e.claims[k := claim] && e'.settleVault == e.settleVault[k.1 := pot]
    requires pot - At(e.settleVault, k.1) == claim - At(e.claims, k)
    ensures DepositsMatch(e')
  {
    forall a: Word
      ensures At(e'.settleVault, a) == SumMap(e'.claims, HeldWeight(a))
    {
      SumMapInsert(e.claims, HeldWeight(a), k, claim);
      assert At(e.settleVault, a) == SumMap(e.claims, HeldWeight(a));
    }
  }

  lemma DepositKeepsMatch(e: Evm, who: Address, t: Token, n: nat, pull: Pull)
    requires DepositsMatch(e) && DepositRefusal(e, who, t, n, pull).None?
    ensures DepositsMatch(Deposited(e, who, t, n, pull))
  {
    var k := (who, AssetID(t));
    DepositorPotMoves(e, Deposited(e, who, t, n, pull), k, At(e.claims, k) + n, At(e.settleVault, k.1) + n);
  }

  lemma WithdrawKeepsMatch(e: Evm, who: Address, t: Token, want: nat, push: Push)
    requires DepositsMatch(e) && WithdrawRefusal(e, who, t, want, push).None?
    ensures DepositsMatch(Withdrawn(e, who, t, want, push))
  {
    var k, n := (who, AssetID(t)), Realized(e.claims, e.settleVault, who, t, want);
    if n > 0 {
      DepositorPotMoves(e, Withdrawn(e, who, t, want, push), k, At(e.claims, k) - n, At(e.settleVault, k.1) - n);
    }
  }

  lemma DepositsMatchByFrame(e: Evm, c: Call)
    requires Callable(e, c) && DepositsMatch(e)
    ensures DepositsMatch(Frame(e, c))
  {
    if Refusal(e, c).None? {
      match c
      case Deposit(who, t, n, v, pull) =>
        assert DepositsMatch(WithValue(e, who, v));
        DepositKeepsMatch(WithValue(e, who, v), who, t, n, pull);
      case Withdraw(who, t, want, push) => WithdrawKeepsMatch(e, who, t, want, push);
      case _ =>
    }
  }

  lemma OtherCallsTouchNoMark(e: Evm, c: Call)
    requires Callable(e, c) && !c.Export? && !c.Import?
    ensures var e' := Frame(e, c);
            e'.staged == e.staged && e'.declared == e.declared && e'.written == e.written && e'.consumed == e.consumed
  {
  }

  /** A call that crosses nothing moves custody only together with the seed. */
  lemma OtherCallsCrossNothing(e: Evm, c: Call, chain: Word)
    requires Callable(e, c) && CustodyIdentity(e, chain) && !c.Export? && !c.Import?
    ensures CustodyIdentity(Frame(e, c), chain)
  {
    var e' := Frame(e, c);
    OtherCallsTouchNoMark(e, c);
    assert forall a: Word :: At(e'.custody, a) - At(e'.seeded, a) == At(e.custody, a) as int - At(e.seeded, a);
    forall a: Word
      ensures At(e'.custody, a) + DeclaredTotal(e'.declared, a) == At(e'.seeded, a) + PutTotal(PutsFor(e'.staged, chain), a)
    {
      assert At(e.custody, a) + DeclaredTotal(e.declared, a) == At(e.seeded, a) + PutTotal(PutsFor(e.staged, chain), a);
    }
  }

  lemma CustodyByFrame(e: Evm, c: Call, chain: Word)
    requires Callable(e, c) && OnChain(c, chain) && CustodyIdentity(e, chain)
    ensures CustodyIdentity(Frame(e, c), chain)
  {
    if Refusal(e, c).None? {
      match c
      case Export(ctx, t, pull) => ExportKeepsCustody(e, ctx, t, pull, chain);
      case Import(ctx, arg, push) => ImportKeepsCustody(e, ctx, arg, push, chain);
      case _ => OtherCallsCrossNothing(e, c, chain);
    }
  }

  /** From ids crossed once each, any successful call leaves them so if and only if it is no crossing at the last
      uint64 height. */
  lemma CrossedOnceIff(e: Evm, c: Call, chain: Word)
    requires Callable(e, c) && Refusal(e, c).None? && OnChain(c, chain) && CrossedOnce(e, chain)
    ensures CrossedOnce(Frame(e, c), chain) <==> LeavesMark(c)
  {
    match c
    case Export(ctx, t, pull) => ExportCrossesOnceIff(e, ctx, t, pull, chain);
    case Import(ctx, arg, push) => ImportCrossesOnceIff(e, ctx, arg, push, chain);
    case _ => OtherCallsTouchNoMark(e, c);
  }

  lemma OtherCallsPayNothing(e: Evm, c: Call)
    requires Callable(e, c) && !c.Import?
    ensures Frame(e, c).paid == e.paid && Frame(e, c).declared == e.declared
  {
  }

  lemma PaidMatchesByFrame(e: Evm, c: Call)
    requires Callable(e, c) && PaidMatches(e)
    ensures PaidMatches(Frame(e, c))
  {
    if c.Import? {
      if Refusal(e, c).None? {
        ImportKeepsPaid(e, c.ctx, c.c, c.push);
      }
    } else {
      OtherCallsPayNothing(e, c);
    }
  }

  /** Every call frame keeps the local invariant and only appends to the logs. */
  lemma FrameKeepsLocal(e: Evm, c: Call, chain: Word)
    requires Local(e, chain) && Callable(e, c) && OnChain(c, chain)
    ensures Local(Frame(e, c), chain)
    ensures e.staged <= Frame(e, c).staged && e.declared <= Frame(e, c).declared
  {
    CustodyByFrame(e, c, chain);
    DepositsMatchByFrame(e, c);
    PaidMatchesByFrame(e, c);
  }

  // ----- the vault against its pots -----

  /** The vault holds its two pots of every token and nothing else. */
  ghost predicate Balanced(e: Evm) {
    forall t: Token :: Surplus(e, t) == 0
  }

  /** The vault holds at least its two pots of every token. */
  ghost predicate PotsCovered(e: Evm) {
    forall t: Token :: Surplus(e, t) >= 0
  }

  /** The asset id of a token. */
  predicate Canonical(a: Word) {
    a == AssetID(AssetAddress(a))
  }

  /** Only real asset ids are in custody. */
  ghost predicate CustodyCanonical(e: Evm) {
    forall a: Word :: At(e.custody, a) > 0 ==> Canonical(a)
  }

  /** What a successful import leaves with the vault when the vault is its own payee. */
  function ReturnedByImport(rec: Claim, push: Push): nat
    requires rec.asset != NATIVE_ASSET ==> push.Pushed?
  {
    if rec.beneficiary != VAULT then 0 else if rec.asset == NATIVE_ASSET then rec.amount else push.received
  }

  /** How far a successful call moves the vault off its pots of token u, exactly. */
  function Drift(e: Evm, c: Call, u: Token): int
    requires Callable(e, c) && Refusal(e, c).None?
  {
    match c
    case Export(_, t, pull) =>
      (if t.asset == NATIVE_ASSET then (if u == NATIVE then t.amount else 0)
       else if u == t.assetAddr then pull.delivered else 0)
      - (if AssetID(u) == t.asset then t.amount else 0)
    case Import(_, arg, push) =>
      var rec := DecodeClaim(arg.claim).value;
      (if u == AssetAddress(rec.asset) then ReturnedByImport(rec, push) as int - rec.amount else 0)
      + (if AssetID(u) == rec.asset then rec.amount else 0)
    case Deposit(_, t, n, v, pull) =>
      (if u == NATIVE then v else 0) + (if u != t then 0 else (if t == NATIVE then 0 else pull.delivered) as int - n)
    case Withdraw(_, _, _, _) => 0
    case Seed(_, _, t, n, v, pull) =>
      (if u == NATIVE then v else 0)
      + (if u != t then 0 else if t == NATIVE then -(Surplus(e, NATIVE) + v) else pull.delivered as int - n)
    case Elsewhere(b, _) => At(b, (u, VAULT)) as int - At(e.balance, (u, VAULT))
  }

  lemma ExportDrifts(e: Evm, ctx: Ctx, t: Transfer, pull: Pull, u: Token)
    requires t.owner != VAULT && t.amount < U64 && ctx.height < U64 && ExportRefusal(e, ctx, t, pull).None?
    ensures Surplus(Exported(e, ctx, t, pull), u) == Surplus(e, u) + Drift(e, Call.Export(ctx, t, pull), u)
  {
    NativeAssetOnly(u);
  }

  lemma ImportDrifts(e: Evm, ctx: Ctx, c: ClaimArg, push: Push, u: Token)
    requires ctx.height < U64 && ImportRefusal(e, ctx, c, push).None?
    ensures Surplus(Imported(e, ctx, c, push), u) == Surplus(e, u) + Drift(e, Call.Import(ctx, c, push), u)
  {
    AssetIDRoundTrip(NATIVE, NATIVE_ASSET);
  }

  lemma ValueDrifts(e: Evm, who: Address, v: nat, u: Token)
    requires who != VAULT && v <= At(e.balance, (NATIVE, who))
    ensures Surplus(WithValue(e, who, v), u) == Surplus(e, u) + if u == NATIVE then v else 0
  {
  }

  lemma DepositDrifts(e: Evm, who: Address, t: Token, n: nat, pull: Pull, u: Token)
    requires who != VAULT && DepositRefusal(e, who, t, n, pull).None?
    ensures Surplus(Deposited(e, who, t, n, pull), u) - Surplus(e, u)
            == if u != t then 0 else (if t == NATIVE then 0 else pull.delivered) as int - n
  {
    AssetIDRoundTrip(u, AssetID(t));
    AssetIDRoundTrip(t, AssetID(u));
  }

  lemma WithdrawDrifts(e: Evm, who: Address, t: Token, want: nat, push: Push, u: Token)
    requires who != VAULT && WithdrawRefusal(e, who, t, want, push).None?
    ensures Surplus(Withdrawn(e, who, t, want, push), u) == Surplus(e, u)
  {
    AssetIDRoundTrip(u, AssetID(t));
    AssetIDRoundTrip(t, AssetID(u));
  }

  lemma SeedDrifts(e: Evm, gov: Option<Address>, who: Address, t: Token, n: nat, pull: Pull, u: Token)
    requires who != VAULT && SeedRefusal(e, gov, who, t, n, pull).None?
    ensures Surplus(Seeded(e, gov, who, t, n, pull), u)
            == if u != t then Surplus(e, u) else if t == NATIVE then 0 else Surplus(e, u) + pull.delivered - n
  {
    AssetIDRoundTrip(u, AssetID(t));
    AssetIDRoundTrip(t, AssetID(u));
  }

  /** Every successful call moves every token's surplus by exactly its drift. */
  lemma FrameDrifts(e: Evm, c: Call, u: Token)
    requires Callable(e, c) && Refusal(e, c).None?
    ensures Surplus(Frame(e, c), u) == Surplus(e, u) + Drift(e, c, u)
  {
    match c
    case Export(ctx, t, pull) => ExportDrifts(e, ctx, t, pull, u);
    case Import(ctx, arg, push) => ImportDrifts(e, ctx, arg, push, u);
    case Deposit(who, t, n, v, pull) =>
      ValueDrifts(e, who, v, u);
      DepositDrifts(WithValue(e, who, v), who, t, n, pull, u);
    case Withdraw(who, t, n, push) => WithdrawDrifts(e, who, t, n, push, u);
    case Seed(gov, who, t, n, v, pull) =>
      ValueDrifts(e, who, v, u);
      ValueDrifts(e, who, v, NATIVE);
      SeedDrifts(WithValue(e, who, v), gov, who, t, n, pull, u);
    case Elsewhere(_, _) =>
  }

  /** The calls that keep the vault identity. An export must deliver exactly what it records, of the token it
      names; an import must leave nothing with the vault (or, of an asset id no token has, everything); a
      deposit must bring exactly what it records and nothing else; a native seed may bring anything. */
  ghost predicate KeepsIdentity(e: Evm, c: Call)
    requires Callable(e, c) && Refusal(e, c).None?
  {
    match c
    case Export(_, t, pull) =>
      t.asset == NATIVE_ASSET || (t.asset == AssetID(t.assetAddr) && pull.delivered == t.amount)
    case Import(_, arg, push) =>
      var rec := DecodeClaim(arg.claim).value;
      ReturnedByImport(rec, push) == if Canonical(rec.asset) then 0 else rec.amount
    case Deposit(_, t, n, v, pull) => if t == NATIVE then v == n else v == 0 && pull.delivered == n
    case Withdraw(_, _, _, _) => true
    case Seed(_, _, t, n, v, pull) => t == NATIVE || (v == 0 && pull.delivered == n)
    case Elsewhere(b, _) =>
      forall k :: k in e.balance.Keys + b.Keys && k.1 == VAULT ==> At(b, k) == At(e.balance, k)
  }

  lemma DriftVanishesIff(e: Evm, c: Call)
    requires Callable(e, c) && Refusal(e, c).None? && Surplus(e, NATIVE) == 0
    ensures (forall u: Token :: Drift(e, c, u) == 0) <==> KeepsIdentity(e, c)
  {
    match c
    case Export(_, t, pull) => ExportVanishesIff(e, c);
    case Import(_, arg, _) => ImportVanishesIff(e, c);
    case Deposit(_, t, n, v, pull) => assert Drift(e, c, t) == 0 && Drift(e, c, NATIVE) == 0 ==> KeepsIdentity(e, c);
    case Withdraw(_, _, _, _) =>
    case Seed(_, _, t, n, v, pull) => assert Drift(e, c, t) == 0 && Drift(e, c, NATIVE) == 0 ==> KeepsIdentity(e, c);
    case Elsewhere(b, _) =>
      assert forall u: Token :: Drift(e, c, u) == 0 <==> At(b, (u, VAULT)) == At(e.balance, (u, VAULT));
  }

  lemma ExportVanishesIff(e: Evm, c: Call)
    requires c.Export? && Callable(e, c) && Refusal(e, c).None?
    ensures (forall u: Token :: Drift(e, c, u) == 0) <==> KeepsIdentity(e, c)
  {
    var t := c.t;
    assert Drift(e, c, t.assetAddr) == 0 ==> KeepsIdentity(e, c);
    forall u: Token
      ensures KeepsIdentity(e, c) ==> Drift(e, c, u) == 0
    {
      NativeAssetOnly(u);
      AssetIDRoundTrip(u, t.asset);
      AssetIDRoundTrip(t.assetAddr, t.asset);
    }
  }

  lemma ImportVanishesIff(e: Evm, c: Call)
    requires c.Import? && Callable(e, c) && Refusal(e, c).None?
    ensures (forall u: Token :: Drift(e, c, u) == 0) <==> KeepsIdentity(e, c)
  {
    var rec := DecodeClaim(c.c.claim).value;
    assert Drift(e, c, AssetAddress(rec.asset)) == 0 ==> KeepsIdentity(e, c);
    forall u: Token
      ensures KeepsIdentity(e, c) ==> Drift(e, c, u) == 0
    {
      AssetIDRoundTrip(u, rec.asset);
    }
  }

  /** From a balanced vault, any successful call leaves it balanced if and only if it keeps the identity. */
  lemma BalancedIff(e: Evm, c: Call)
    requires Callable(e, c) && Refusal(e, c).None? && Balanced(e)
    ensures Balanced(Frame(e, c)) <==> KeepsIdentity(e, c)
  {
    assert Surplus(e, NATIVE) == 0;
    DriftVanishesIff(e, c);
    forall u: Token
      ensures Surplus(Frame(e, c), u) == 0 <==> Drift(e, c, u) == 0
    {
      assert Surplus(e, u) == 0;
      FrameDrifts(e, c, u);
    }
  }

  /** The calls that leave both pots covered: all but an export that records one token's asset and pulls another
      token with less of the first to spare, and a payout of an asset id no token has. */
  predicate KeepsCover(e: Evm, c: Call)
    requires Callable(e, c) && Refusal(e, c).None?
  {
    match c
    case Export(_, t, _) =>
      t.asset == NATIVE_ASSET || t.asset == AssetID(t.assetAddr) || !Canonical(t.asset)
      || t.amount <= Surplus(e, AssetAddress(t.asset))
    case Import(_, arg, push) =>
      var rec := DecodeClaim(arg.claim).value;
      Canonical(rec.asset) || rec.amount <= Surplus(e, AssetAddress(rec.asset)) + ReturnedByImport(rec, push)
    case _ => true
  }

  lemma CoverKept(e: Evm, c: Call, u: Token)
    requires Callable(e, c) && Refusal(e, c).None? && KeepsCover(e, c) && Surplus(e, u) >= 0
    ensures Surplus(e, u) + Drift(e, c, u) >= 0
  {
    match c
    case Export(_, t, _) =>
      NativeAssetOnly(u);
      AssetIDRoundTrip(u, t.asset);
    case Import(_, arg, _) => AssetIDRoundTrip(u, DecodeClaim(arg.claim).value.asset);
    case Deposit(who, _, _, v, _) => ValueDrifts(e, who, v, NATIVE);
    case Withdraw(_, _, _, _) =>
    case Seed(_, who, _, _, v, _) => ValueDrifts(e, who, v, NATIVE);
    case Elsewhere(b, _) => assert At(b, (u, VAULT)) >= At(e.balance, (u, VAULT));
  }

  lemma CoverLost(e: Evm, c: Call, u: Token)
    requires Callable(e, c) && Refusal(e, c).None? && !KeepsCover(e, c)
    requires u == AssetAddress(if c.Export? then c.t.asset else DecodeClaim(c.c.claim).value.asset)
    ensures Surplus(Frame(e, c), u) < 0
  {
    FrameDrifts(e, c, u);
    AssetIDRoundTrip(u, if c.Export? then c.t.asset else DecodeClaim(c.c.claim).value.asset);
  }

  /** From covered pots, any successful call leaves them covered if and only if it is one of these. */
  lemma CoveredIff(e: Evm, c: Call)
    requires Callable(e, c) && Refusal(e, c).None? && PotsCovered(e)
    ensures PotsCovered(Frame(e, c)) <==> KeepsCover(e, c)
  {
    if KeepsCover(e, c) {
      forall u: Token
        ensures Surplus(Frame(e, c), u) >= 0
      {
        assert Surplus(e, u) >= 0;
        CoverKept(e, c, u);
        FrameDrifts(e, c, u);
      }
    } else {
      var u := AssetAddress(if c.Export? then c.t.asset else DecodeClaim(c.c.claim).value.asset);
      CoverLost(e, c, u);
    }
  }

  /** While only real asset ids are in custody, a call that names its token covers the pots and keeps it so. */
  lemma NamedCallsCover(e: Evm, c: Call)
    requires Callable(e, c) && CustodyCanonical(e) && NamesItsToken(c)
    ensures Refusal(e, c).None? ==> KeepsCover(e, c)
    ensures CustodyCanonical(Frame(e, c))
  {
    if Refusal(e, c).None? {
      match c
      case Export(_, t, _) => AssetIDRoundTrip(t.assetAddr, t.asset);
      case Import(_, arg, _) => assert At(e.custody, DecodeClaim(arg.claim).value.asset) > 0;
      case Seed(_, _, t, _, _, _) => AssetIDRoundTrip(t, AssetID(t));
      case _ =>
    }
  }
}

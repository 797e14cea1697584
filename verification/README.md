# Lux precompiles: a verified model

The Lux EVM precompiles keep several small ledgers and state machines in EVM storage: the funding rail
between the C and D chains, the key-value store under the order book, a lending pool with its liquidator,
the bridge registrar, the inference bridge, the spot quoter, the broker-fill ledger, the dead-address split,
and the calldata codecs. This project models them in Dafny and proves what they promise, over every input,
every run and every reachable state.

`dafny verify dfyconfig.toml` checks the whole project.

## How it is built

Each stateful component has three layers. A *value* layer gives every operation its meaning as a function on
a state value, with the source's branches, refusals and rounding. A *class* holds the component's fields and
its methods run the source's steps over them; each method is proved to compute exactly that meaning, result
and whole new state. *Laws* say of the same functions, without naming them, what they compute: when each call
succeeds, who pays whom, and between which products a rounded value lies. A *runs* layer proves the promises about the values: what every step keeps, then what
holds in every reachable state.

| part | files |
|---|---|
| bytes, rounding, sums, fixed-width records, 256-bit words | `Bytes`, `Rounding`, `Sums`, `FixedWidth`, `Words`, `Wrappers` |
| storage slots and the order store | `EvmSlots`, `CoreStore`, `CoreStoreRuns` |
| the funding rail | `Wire`, `Staging`, `RailState`, `Rail`, `RailLaws`, `RailInvariant`, `RailWorld`, `RailSlots`, `RailPayees`, `RailWitness` |
| lending | `InterestRate`, `LendingState`, `Lending`, `LendingLaws`, `LendingInvariant`, `LendingRuns`, `LendingCash` |
| the bridge registrar | `Registry`, `Governance`, `Registrar`, `RegistrarRuns`, `RegistrarQuorum` |
| the inference bridge | `InferenceWire`, `Merkle`, `Outbox`, `Inference` |
| quoter, fill ledger, dead addresses | `Quoter`, `FillAttestation`, `Dead` |
| calldata | `Cursor`, `PoolCodec` |

**Hashes** are named by what they hash: a storage key, an intent id, a Merkle node or a signed digest is a
datatype value carrying its preimage, so equal names mean equal preimages. Beside each such datatype a lemma
proves that the byte strings really hashed are distinct for distinct names; what is assumed is only that the
hash has no collisions and that images of differently shaped preimages differ. Signature recovery is an
arbitrary function of digest and signature.

**Reverts** restore a snapshot of the EVM value. In the rail, frames nest: snapshots open, revert and commit in
any order inside a block (a refused call is undone by its own frame, so its meaning is the unchanged state),
blocks are accepted or rejected, and shared memory moves only on accept. `RailSlots` carries the storage that
spells the staged log through the same steps, so that what the flush reads back is part of the runs. Block
validity is the assumption that the bytes a block's imports carry are the recorded objects.

**The D side** of the rail is any chain that credits a claim at most once, trades without creating value, and
exports only what an account owns.

## What the code does not keep, and exactly when

* The vault identity `holding == settleVault + custody` (stated at `dex/native_state.go:66-95`) is kept by a
  successful call exactly when `KeepsIdentity` holds of it (`BalancedIff`), and by a run exactly when it holds of
  every call that took effect (`VaultIdentity`). An export must name the token of the asset it moves and be
  delivered exactly the amount; a native one needs nothing. A native deposit must be sent exactly what it records.
  An ERC-20 deposit or seed must be delivered exactly what it records and carry no native value. A native seed may
  be sent anything: it records all of it. An import must not leave its payout with the vault. A withdrawal always
  keeps it. Anything else must leave the vault's balances alone: a donation breaks it.
* The weaker `holding >= settleVault + custody` is kept exactly when `KeepsCover` holds (`CoveredIff`,
  `PotsCoveredIff`): it is lost by an export that records one token's asset, pulls another token, and asks for
  more than the vault has to spare of the first; once such an export has put an asset id no token has into custody,
  paying that out can lose it too. No entry point delivers an export that names another token: both callers pass
  `assetAddress(asset)` (`dex/settle9999.go:271`, `dex/position_commit.go:177`; `EntryPointsNameTheirToken`), and
  then the vault always covers both pots (`VaultCoversBothPots`). `DepositMayUnbalance` and `ExportMayUncover` are
  runs in which the identity and the cover are lost.
* A crossing marks its id with the block's number plus one, as a uint64: at the last height the mark is the empty
  word and the id can cross again (`MarkAddsIff`, `MarkMayBeLost`). Every id is crossed once and marked throughout a
  run exactly when no crossing is made at that height (`CrossedOnceThroughoutIff`); custody = seed + exported - imported, the
  vault's own books and what the flush delivers hold at any height.
* `Has` and `Get` disagree for values longer than MaxInt32 bytes (`HasAgreesWithGet`). A market's list reads empty
  once it is given its 2^31st id, although its rows are still there: iteration shows exactly the rows put since
  (`IterationShowsIff`, `ListMayVanish`).
* Interest over 2^63 blocks or more is negative whenever the principal times the block rate is not zero, and zero
  when it is (`AccrualGainsIff`): the block count is reinterpreted as an int64.
* `Finalize` adds block and window in 64 bits: a window whose end does not fit matures early
  (`FinalizeWaitsIff`).
* A chain name ending in zero bytes is stored shortened (`RowRoundTripIff`). `SeedRegistry` does not look for
  repeated ids, and leaves a sound table exactly without them (`SeedMakesTableIff`); no later edit repeats one.
* After a seed `SeedGovernance` accepts, anything can be authorised exactly when the threshold is at most the number
  of distinct operators and at most 255 (`SeedIsAuthorisableIff`): the signature count is one byte
  (`bridge/registrar.go:475-491`). One operator listed twice under threshold 2, and 256 different operators under
  threshold 256, are both accepted and can never authorise anything.
* `CommitReceiptRoot` at the last uint64 height writes the empty word, so the root stays, or becomes, untrusted
  (`CommitTrustsIff`).
* With a dead address as its own treasury, the balance there never settles to what is burned while a share is
  due (`ReceiveSettlesIff`).
* A position operation that forces a positive delta turns the least int256 into one the kernel reads back as
  negative (`dex/position_module.go:267-287`); every other delta arrives as intended (`KernelSeesTheCallIff`).
* A reserve's TotalSupply falls below its TotalBorrows when the interest accrued exceeds the cash, which needs no
  liquidation: accrual raises TotalBorrows alone (`dex/lending.go:598-653`) and stays even when the operation that
  caused it is refused. It also falls below when a liquidation's bonus, or a repayment of a negative amount, exceeds
  the cash. `RunKeepsCashIff` gives the condition for each operation, `CashMayGoNegative` a reachable run.
* The pool's balance is kept in unchecked 256-bit arithmetic: modulo 2^256 the books always balance
  (`ValueIsConserved`), as numbers exactly when what they say fits (`ValueIsExactIff`, `BalanceMayWrap`).
  `transferAsset` moves the native balance whatever the asset is (`dex/lending.go:739-743`).

## Model

| member | source | states |
|---|---|---|
| `Bytes.PutU64` | aivmbridge/state.go:276-281 | the big-endian byte loop writes exactly the low eight bytes of its argument |
| `Bytes.BytesToU64` | aivmbridge/state.go:283-289 | the byte loop reads a big-endian number of at most eight bytes, and it is a uint64 |
| `EvmSlots.PreimageInjective` | dex/native_staging.go:66-85 | no two staging or store keys hash the same byte string, so naming keys by what they hash is sound |
| `EvmSlots.Storage.WriteBytes` | dex/native_staging.go:151-164 | length word then data words: the record spells the value, no other record changes |
| `EvmSlots.Storage.ReadBytes` | dex/native_staging.go:166-182 | a reader gets exactly the record's declared bytes, or nothing for an empty or over-long length |
| `EvmSlots.SpelledIsStored` | dex/native_staging.go:189-195 | stale words of a longer earlier value are never visible: a spelled value reads back as itself, for every length up to MaxInt32 and as absent beyond |
| `EvmSlots.OtherRecordUnchanged` | dex/native_staging.go:66-75 | a write to one record is invisible at every other |
| `CoreStore.OrderKeyRoundTrip` | dex/core_store.go:274-306 | the order-row key parses back to its market and id, and no other key parses to them |
| `CoreStore.OrderPrefixRoundTrip` | dex/core_store.go:296-306 | the prefix parser recognises exactly the six letters of the order prefix followed by a market id |
| `CoreStore.EvmStore.Get` | dex/core_store.go:71-87 | returns the abstract store's value of the key |
| `CoreStore.EvmStore.Has` | dex/core_store.go:90-93 | says whether the stored length word is non-zero |
| `CoreStore.EvmStore.Put` | dex/core_store.go:98-115 | the whole new abstract store: that key's value, that market's list, nothing else |
| `CoreStore.EvmStore.Delete` | dex/core_store.go:119-126 | the whole new abstract store: the key gone, its id out of its market's list |
| `CoreStore.EvmStore.IndexIDs` | dex/core_store.go:143-157 | unpacks exactly the market's list from its four-per-word record |
| `CoreStore.EvmStore.PackWord` | dex/core_store.go:160-174 | one packed word holds the right four ids, zero-padded |
| `CoreStore.EvmStore.IndexWrite` | dex/core_store.go:160-174 | the packed list reads back as the ids written, through every shrink and regrow |
| `CoreStore.EvmStore.IndexAdd` | dex/core_store.go:178-186 | appends an id unless the list has it |
| `CoreStore.EvmStore.IndexRemove` | dex/core_store.go:189-204 | compacts one id out, keeping the order of the others |
| `CoreStore.EvmStore.Compact` | dex/core_store.go:189-204 | the in-place filter keeps exactly the other ids, in order, and reports whether it found one |
| `CoreStore.PackedIsRead` | dex/core_store.go:143-174 | what the packer writes the unpacker reads, up to MaxInt32 ids and empty beyond |
| `CoreStore.EvmStore.NewIteratorWithPrefix` | dex/core_store.go:213-219 | only an order prefix iterates, over that market's rows |
| `CoreStore.OrderIterator.Next` | dex/core_store.go:249-264 | yields the next present row and leaves the rest, skips rows without a value, terminates |
| `CoreStoreRuns.LookupIsLastWrite` | dex/core_store.go:71-126 | over any history a lookup answers from the last Put or Delete of that very key |
| `CoreStoreRuns.HasAgreesWithGet` | dex/core_store.go:71-93 | Has and Get agree after a Put exactly when the value is at most MaxInt32 bytes |
| `CoreStoreRuns.IndexIsLiveOrdersByAge` | dex/core_store.go:143-204 | over any history a market's list is its orders live since the list last overflowed (ever, if it never has), each once, in first-insertion order |
| `CoreStoreRuns.PutKeepsIndexUnlessFull` | dex/core_store.go:160-186 | a new id extends the list unless the list already holds MaxInt32 ids, and then the whole list reads empty |
| `CoreStoreRuns.ListMayVanish` | dex/core_store.go:160-186 | a reachable history whose market lists nothing while every one of its 2^31 rows is present |
| `CoreStoreRuns.IterationIsExact` | dex/core_store.go:213-264 | over any history iterating a market yields exactly the rows put, and still present, since its list last overflowed, each once, with its last value, oldest first |
| `CoreStoreRuns.IterationShowsIff` | dex/core_store.go:143-264 | a present row is iterated exactly when it was put since its market's list last overflowed |
| `Wire.ClaimRoundTrip` | dex/native_wire.go:62-81 | a 60-byte claim decodes to what was encoded |
| `Wire.DecodedIsCanonical` | dex/native_wire.go:73-81 | nothing but canonical encodings decodes, and a decoded amount is a uint64 |
| `Wire.ClaimIDPreimageInjective` | dex/native_wire.go:102-114 | corridor, transaction and call index fix the claim-id preimage and are fixed by it |
| `Staging.StagingLog.StageAtomicPut` | dex/native_staging.go:105-110 | appends exactly one put to the log the storage spells |
| `Staging.StagingLog.StageAtomicRemove` | dex/native_staging.go:113-118 | appends exactly one removal to the log the storage spells |
| `Staging.OpReads` | dex/native_staging.go:284-327 | a position decodes exactly as a put of 125 bytes or a removal of at least 65 of the known version, under its kind, and nothing else does |
| `Staging.OpAppended` | dex/native_staging.go:105-164 | a new record, its kind and the counter alter no earlier operation |
| `Staging.CollectRange` | dex/native_staging.go:271-328 | succeeds exactly when every position of the window decodes, groups its operations chain by chain in order, and indexes every put under the beneficiary its claim names |
| `Staging.CollectedIsIndexed` | dex/native_staging.go:303-310 | whatever collects a window hands every put over under the beneficiary of its own claim |
| `Staging.FlushAcceptedAtomicOps` | dex/native_staging.go:345-362 | regression and malformed errors exactly when they hold, and then nothing is applied; otherwise shared memory is where the window's operations take it |
| `Staging.SharedMemoryHost.Apply` | dex/native_staging.go:345-362 | every chain's puts then its removes, the chains in any order |
| `Staging.AppliedIsFlush` | dex/native_staging.go:271-362 | applying a window's grouped requests takes shared memory to where its operations, one by one, take it, and nowhere else |
| `Staging.StagesOneExtends` | dex/native_staging.go:105-164 | staging through the counter appends to whatever log the storage holds |
| `Staging.SameStagingSameLog` | dex/native_staging.go:66-85 | writes to any other slot leave the log alone |
| `Staging.WindowsSplit` | dex/native_staging.go:267-328 | collecting [a,c) is, per chain, collecting [a,b) followed by [b,c) |
| `Staging.FlushDeliversGain` | dex/native_staging.go:345-362 | an accepted block's flush is exactly the operations its log gained over its parent, never malformed |
| `Staging.GroupingIsFaithful` | dex/native_staging.go:271-362 | applying the per-chain requests does what the log says, operation by operation |
| `Rail.StateDB.LockAsset` | dex/native_zap.go:239-273 | the native debit or the ERC-20 pull, refused as the source refuses |
| `Rail.StateDB.DeliveredNative` | dex/native_zap.go:164-168 | what the vault holds of the native token beyond its two pots |
| `Rail.StateDB.RecordCustodyIn` | dex/native_zap.go:176-179 | custody grows by the amount |
| `Rail.StateDB.RecordCustodyOut` | dex/native_zap.go:186-194 | custody falls by the amount, or the call is refused as unbacked with nothing changed |
| `Rail.StateDB.Export` | dex/native_dchain_client.go:114-158 | a successful export is the whole state change ExportMoves and ExportStagesItsClaim describe; a refused one names the refusal, in the source's order |
| `Rail.StateDB.MoveNativeIntoVault` | dex/native_zap.go:113-121 | debits the payer and credits the vault, or is refused for want of funds |
| `Rail.StateDB.MoveNativeOutOfVault` | dex/native_zap.go:128-136 | debits the vault and credits the payee, or is refused |
| `Rail.StateDB.PullERC20Terminal` | dex/native_zap.go:207-217 | what the token took and delivered, refused when it under-delivers |
| `Rail.StateDB.PushERC20Terminal` | dex/native_zap.go:223-225 | what the token took from the vault and delivered, or its refusal |
| `Rail.StateDB.BindImportObject` | dex/settle_import.go:166-183 | refuses a non-canonical or zero-amount object, and declares the consumption it accepts |
| `Rail.StateDB.Import` | dex/native_dchain_client.go:195-242 | the same for imports: consumed, custody, credit and staged removal together |
| `Rail.StateDB.CreditAsset` | dex/native_dchain_client.go:298-314 | pays the recorded beneficiary from the vault and records the payment, or is refused |
| `Rail.StateDB.Deposit` | dex/settle_custody.go:67-144 | amount, halt, re-entry and delivery refusals in that order; else a depositor's claim and the depositor pot move together by the recorded amount |
| `Rail.StateDB.Withdraw` | dex/settle_custody.go:150-220 | refuses re-entry; pays at most the caller's claim, at most the depositor pot |
| `Rail.StateDB.Seed` | dex/settle_seed.go:83-123 | the controller's alone; a native seed records everything undistributed, an ERC-20 seed the amount asked |
| `RailLaws.ExportSucceedsIff` | dex/native_dchain_client.go:114-158 | an export succeeds exactly on an open rail, of a positive amount, under an unmarked id, that the owner's balance or token covers; each refusal names its own failure |
| `RailLaws.ExportMoves` | dex/native_zap.go:239-273 | the asset's custody grows by the amount, the owner pays and the vault receives, the id is marked, nothing else moves |
| `RailLaws.ImportSucceedsIff` | dex/native_dchain_client.go:195-242 | an import succeeds exactly for an unconsumed 60-byte object whose bytes name the stated beneficiary and asset and a positive amount the vault can pay; each refusal names its own failure |
| `RailLaws.ImportMoves` | dex/native_dchain_client.go:298-314 | the asset's custody falls by the recorded amount, the vault pays it and the beneficiary receives, id marked, declared and its removal staged, nothing else moves |
| `RailLaws.DepositSucceedsIff` | dex/settle_custody.go:67-144 | a deposit succeeds exactly for a positive amount of an asset not halted, outside the guard, that was delivered |
| `RailLaws.DepositMoves` | dex/settle_custody.go:67-144 | the caller's claim and the pot grow by the amount, the token moves what it says, nothing else does |
| `RailLaws.WithdrawSucceedsIff` | dex/settle_custody.go:150-220 | the payout is the least of what is asked, the claim and the pot, and is refused exactly inside the guard, for want of holding, or by the token |
| `RailLaws.WithdrawMoves` | dex/settle_custody.go:150-220 | claim and pot fall by the payout, the vault pays it to the caller, nothing else moves |
| `RailLaws.SeedSucceedsIff` | dex/settle_seed.go:83-123 | a seed succeeds exactly for the controller, a positive amount, outside the guard, that was delivered |
| `RailLaws.SeedMoves` | dex/settle_seed.go:83-123 | custody and the seeded total grow by everything undistributed, or by an ERC-20's amount, nothing else moves |
| `RailState.EntryPointsNameTheirToken` | dex/settle9999.go:254-273 | both entry points hand Export the token of its own asset, so neither delivers an export that names another |
| `RailState.MarkAddsIff` | dex/native_state.go:41-64 | a crossing's mark makes its id refused from then on exactly when the height is not the last uint64, where the mark is the empty word |
| `RailInvariant.FrameDrifts` | dex/native_zap.go:113-273 | every successful call moves every token's surplus over the two pots by exactly its stated drift |
| `RailInvariant.BalancedIff` | dex/native_state.go:66-95 | from holding = settleVault + custody, any successful call keeps it for every token if and only if KeepsIdentity holds of the call |
| `RailInvariant.CoveredIff` | dex/native_state.go:66-95 | from pots within the holding, any successful call keeps them so if and only if KeepsCover holds of the call |
| `RailInvariant.NamedCallsCover` | dex/settle9999.go:254-273 | while only real asset ids are in custody, a call that names its own token keeps the pots covered and the ids real |
| `RailInvariant.ExportCrossesOnceIff` | dex/native_dchain_client.go:114-158 | an export leaves every id crossed once and marked exactly when it is not made at the last uint64 height |
| `RailInvariant.ImportCrossesOnceIff` | dex/native_dchain_client.go:195-242 | and so does an import |
| `RailInvariant.CrossedOnceIff` | dex/native_state.go:29-64 | from ids crossed once each, any successful call leaves them so if and only if it is no crossing at the last uint64 height |
| `RailInvariant.CustodyByFrame` | dex/native_state.go:66-95 | every call, at any height, keeps custody = seed + exported - imported |
| `RailInvariant.ImportKeepsPaid` | dex/native_dchain_client.go:298-314 | an import pays on record exactly what the claim it consumes carries, to its payee and in all |
| `RailInvariant.FrameKeepsLocal` | dex/native_state.go:66-111 | every call frame, error returns and mismatched exports included, keeps every local invariant and only appends to the logs |
| `RailWorld.StepKeepsInv` | dex/native_dchain_client.go:114-242 | calls, nested reverts, accepts, rejects and D's steps each keep the custody identity, the depositors' claims, the payments on record, and the accepted log as what was delivered |
| `RailWorld.StepKeepsInStep` | dex/native_dchain_client.go:114-242 | and each keeps all three stores in agreement, if a crossing it makes leaves its mark |
| `RailWorld.AcceptKeepsLinked` | dex/native_staging.go:345-362 | flushing a block's window keeps shared memory, the crossing sets and D's books exact |
| `RailWorld.RunKeepsInv` | dex/native_state.go:66-95 | so do whole runs: the invariant holds in every reachable world, at whatever heights |
| `RailWorld.RunStaysInStep` | dex/native_state.go:29-95 | the agreement of EVM balances, 0x9999 slots and shared memory holds in every world up to which every crossing left its mark |
| `RailWorld.CrossedOnceThroughoutIff` | dex/native_state.go:29-64 | over any run every id is crossed once and marked in every state, if and only if no crossing was made at the last uint64 height |
| `RailWorld.CustodyIsSeedPlusDValue` | dex/native_state.go:66-95 | at each accepted block custody = seed + what D owns + unconsumed claims in both directions |
| `RailWorld.VaultCoversBothPots` | dex/native_state.go:66-95 | in every state of a run whose exports name their tokens, as both entry points do, the vault holds both pots of every token |
| `RailWorld.PotsCoveredIff` | dex/native_state.go:66-95 | over any run, whatever the exports name, the vault holds both pots in every state if and only if every call that took effect keeps them covered |
| `RailWorld.DepositorPotIsClaims` | dex/settle_custody.go:67-220 | in every state of any run the depositor pot is the sum of the depositors' claims |
| `RailWorld.VaultIdentity` | dex/native_state.go:66-95 | over any run holding = settleVault + custody for every token in every state, if and only if the vault starts empty and every call that took effect keeps the identity |
| `RailWorld.RecordedClaimBacked` | dex/native_dchain_client.go:209-241 | custody covers any recorded D->C object the block has not consumed |
| `RailWorld.RecordedImportSucceeds` | dex/native_dchain_client.go:195-242 | on an open rail the import of a recorded claim in its own terms is refused only when the token itself refuses, and never for want of backing |
| `RailWorld.CrossedExactlyOnce` | dex/native_state.go:29-64 | over any run with no crossing at the last uint64 height every claim id is exported at most once and imported at most once, and shared memory received exactly the accepted log |
| `RailWorld.PaidIsConsumedExports` | dex/native_dchain_client.go:209-241 | what was ever paid to each beneficiary of each asset, and of it to anyone, is what the distinct consumed D exports naming them carry |
| `RailWorld.PaymentsAreOnRecord` | dex/native_dchain_client.go:298-314 | in every state of any run what was paid to each beneficiary of each asset is what the consumed claims naming them carry |
| `RailPayees.ExportStagesItsClaim` | dex/native_dchain_client.go:125-151 | a successful export stages, last, one put under its claim id whose value names the transfer's beneficiary, or its owner where it names none, its asset and its amount |
| `RailPayees.RunKeepsSent` | dex/native_dchain_client.go:125-151 | in every state of any run the staged puts carry for each account, and are indexed under it with, exactly what the exports naming it carry |
| `RailPayees.CreditedIsSent` | dex/native_dchain_client.go:125-151 | what D's crediting of claims ever brought an account of an asset is what the accepted exports naming it carry, less what is on its way to it |
| `RailPayees.FlushIndexesTheNamed` | dex/native_staging.go:271-362 | what a block's flush collects for the D peer is indexed under each account with exactly what the block's exports naming it carry |
| `RailLaws.DepositsComeBack` | dex/settle_custody.go:150-220 | in any run whose exports name their tokens a withdrawal pays what is asked, up to the claim, and only the token itself can refuse it |
| `RailWorld.ImportPaysTheBeneficiary` | dex/native_dchain_client.go:298-314 | a paid import credits the recorded beneficiary in the recorded asset and moves no other balance |
| `RailWorld.RevertedNeverDelivered` | dex/native_staging.go:345-362 | what a block delivers is its surviving log beyond its parent's, nothing that was reverted |
| `RailWitness.DepositMayUnbalance` | dex/settle_custody.go:67-144 | a run from genesis in which a deposit sent two units and recording one leaves the vault one unit over its pots |
| `RailWitness.ExportMayUncover` | dex/native_zap.go:239-273 | a run in which an export of one token paid in another leaves the vault a unit short of its pots |
| `RailWitness.MarkMayBeLost` | dex/native_state.go:41-45 | a run in which one id is exported twice at the last uint64 height: custody counts two units, shared memory holds one object |
| `RailSlots.SlotsHoldTheLogs` | dex/native_staging.go:105-164 | through calls, snapshots, reverts, commits, accepts and rejects the storage of every state spells exactly that state's staged log |
| `RailSlots.FlushNeverFails` | dex/native_staging.go:345-362 | at any point of any run the accept's flush sees no regression and no malformed position, reads exactly the block's gain, and takes shared memory where the accepted log says |
| `RailSlots.AcceptedSlotsAreDelivered` | dex/native_staging.go:330-362 | the accepted storage always spells exactly the operations ever applied to shared memory |
| `InterestRate.UtilizationMono` | dex/interest_rate.go:89-116 | utilization is nondecreasing in borrows and nonincreasing in cash through both caps |
| `InterestRate.BorrowRateMono` | dex/interest_rate.go:120-148 | so is the borrow rate, across the kink, for every kink in (0, RAY] |
| `InterestRate.SupplyRateAtMostBorrowRate` | dex/interest_rate.go:152-170 | the supply rate never exceeds the borrow rate |
| `InterestRate.AccrualNonNegative` | dex/interest_rate.go:199-218 | simple interest is never negative for fewer than 2^63 blocks |
| `InterestRate.AccrualGainsIff` | dex/interest_rate.go:199-218 | a uint64 of blocks charges a non-negative interest exactly when the count is an int64 or there is nothing to charge per block |
| `InterestRate.CompoundAtLeastSimple` | dex/interest_rate.go:231-267 | compound accrual is at least simple accrual |
| `InterestRate.CompoundMono` | dex/interest_rate.go:231-267 | compound accrual is nondecreasing in blocks across the 100-block switch |
| `InterestRate.UtilizationIs` | dex/interest_rate.go:89-116 | utilization is borrows over cash + borrows - reserves, rounded down, capped at one, and one when nothing is left |
| `InterestRate.AnnualRateIs` | dex/interest_rate.go:120-148 | up to the kink the rate rises from the base with the first slope, beyond it with the second, each part rounded down |
| `InterestRate.AccrueInterestIs` | dex/interest_rate.go:199-218 | interest is principal times block rate times the int64 block count, rounded down, the block rate a 15,768,000th of the year's |
| `InterestRate.SupplyRateIs` | dex/interest_rate.go:152-170 | suppliers earn the borrow rate on the utilized part, less the reserve's fraction, each product rounded down |
| `InterestRate.CompoundIs` | dex/interest_rate.go:231-267 | beyond a hundred blocks interest is the principal's share of rt + rt^2 / 2, each division rounded down |
| `Lending.LendingPool.InitializeReserve` | dex/lending.go:104-146 | a fresh reserve at index and rate 1, or the source's refusal, as the value function says |
| `Lending.LendingPool.SetReserveActive` | dex/lending.go:149-162 | the switch alone changes |
| `Lending.LendingPool.SetBorrowCap` | dex/lending.go:165-178 | the cap alone changes |
| `Lending.LendingPool.Supply` | dex/lending.go:186-253 | computes the supply's meaning: shares at the accrued rate, totals, balances, or the refusal |
| `Lending.LendingPool.Withdraw` | dex/lending.go:257-328 | computes the withdrawal WithdrawPaidIff describes, its health check on recorded debt included, after the accrual |
| `Lending.LendingPool.Borrow` | dex/lending.go:331-410 | computes the borrow's meaning; a late refusal keeps what was already accrued |
| `Lending.LendingPool.Repay` | dex/lending.go:413-461 | computes the repayment's meaning, capped at the debt |
| `Lending.LendingPool.GetHealthFactor` | dex/lending.go:486-505 | the health factor of recorded debt that HealthIs brackets, 1 without reserve or debt |
| `Lending.LendingPool.AccrueInterest` | dex/lending.go:598-653 | brings index, totals, reserves and exchange rate to the block |
| `Lending.LendingPool.CreditInterest` | dex/lending.go:622-650 | spreads one accrual over the reserve's fields, each division rounded down |
| `Lending.LendingPool.UpdateUserBorrow` | dex/lending.go:656-669 | re-expresses one debt at the reserve's index |
| `Lending.LendingPool.TransferAsset` | dex/lending.go:739-743 | unchecked 256-bit debit and credit |
| `Lending.Liquidator.SetCloseFactor` | dex/liquidation.go:100-110 | accepts exactly the factors in (0, 1] |
| `Lending.Liquidator.SetProtocolFee` | dex/liquidation.go:113-123 | accepts exactly the fees in [0, 1] |
| `Lending.Liquidator.Liquidate` | dex/liquidation.go:131-215 | computes the liquidation that LiquidationRefusedIff, SeizureIs and ExecutionIs describe and appends exactly one event per success |
| `Lending.Liquidator.SeizeFrom` | dex/liquidation.go:372-390 | shares and debt cut, neither below zero |
| `Lending.Liquidator.ExecuteLiquidation` | dex/liquidation.go:353-414 | balances, position, reserve and fee moved as the value function says |
| `LendingLaws.HealthIs` | dex/lending.go:672-687 | for a positive debt the health factor times the debt brackets the collateral cut by the collateral factor |
| `LendingLaws.HealthyIff` | dex/lending.go:672-687 | a position of positive debt is healthy exactly when debt times one is at most its valued supply times the collateral factor |
| `LendingLaws.WithdrawPaidIff` | dex/lending.go:286-325 | a withdrawal is refused for health exactly when what it leaves, times the collateral factor, is below the recorded debt, then for want of cash, and else pays the shares' worth and moves nothing more |
| `LendingLaws.SupplyMints` | dex/lending.go:215-250 | a supply mints amount over exchange rate shares, rounded down, and books the amount |
| `LendingLaws.BorrowPaidIff` | dex/lending.go:365-410 | a borrow is refused exactly when the new debt exceeds the valued supply times the collateral factor, then for want of cash, and else moves debt, totals and balance by the amount |
| `LendingLaws.RepayMoves` | dex/lending.go:435-461 | a repayment moves the lesser of amount and debt, and nothing bounds it below |
| `LendingLaws.RebasedIs` | dex/lending.go:656-669 | a debt is scaled by the ratio of the indices and rounded down |
| `LendingLaws.TransferMoves` | dex/lending.go:739-743 | payer and payee move by the amount modulo 2^256, no other account moves |
| `LendingLaws.InitializedIs` | dex/lending.go:104-146 | a new reserve is empty, at index and rate one, open and uncapped; refused exactly when it exists or the factor exceeds one |
| `LendingLaws.LiquidationRefusedIff` | dex/liquidation.go:150-158 | a liquidator of threshold T refuses as healthy exactly when T times the debt is at most the valued, factor-cut supply; at the default, when debt is at most supply times factor |
| `LendingLaws.LiquidationErrors` | dex/liquidation.go:141-158 | an unknown reserve is refused first, then a missing debt, and no refusal moves anything |
| `LendingLaws.SeizureIs` | dex/liquidation.go:160-190 | the debt asked up to the close factor's share and the same with its bonus, or all the borrower has and the debt that pays for |
| `LendingLaws.ExecutionIs` | dex/liquidation.go:353-414 | debt in, collateral less the protocol's share of the bonus out, shares and debt cut and never negative, the share booked as reserves |
| `LendingInvariant.AccrueKeepsInv` | dex/lending.go:598-653 | accrual, with its floored index, keeps the debts covered |
| `LendingInvariant.AccrualIsSplit` | dex/lending.go:622-650 | borrowers owe the interest, the protocol keeps its share, index and exchange rate rise by the rest per unit, each short by less than one unit |
| `LendingInvariant.AccrualCovered` | dex/lending.go:626-633 | raising the index by floor(due * RAY / total) raises what is owed by at most `due` |
| `LendingInvariant.RebaseKeepsInv` | dex/lending.go:656-669 | re-expressing a debt rounds it down and keeps it covered |
| `LendingInvariant.OneDebtCovered` | dex/lending.go:413-461 | no recorded debt exceeds the reserve's total borrows |
| `LendingRuns.BorrowKeepsInv` | dex/lending.go:331-410 | a borrow, refused or not, keeps the debts covered |
| `LendingRuns.RepayKeepsInv` | dex/lending.go:413-461 | a repayment keeps the debts covered and total borrows non-negative |
| `LendingRuns.SeizureWithinDebt` | dex/liquidation.go:131-190 | a liquidator repays at most what was asked and the close factor's share of the debt, and seizes at most the borrower's supply |
| `LendingRuns.LiquidateKeepsInv` | dex/liquidation.go:131-215 | a liquidation keeps the debts covered |
| `LendingRuns.SupplyThenWithdraw` | dex/lending.go:186-328 | withdrawing at the same index the shares a supply minted pays back at most what was supplied |
| `LendingRuns.BorrowThenRepay` | dex/lending.go:331-461 | repaying at the same index what was just borrowed restores debt and totals exactly |
| `LendingRuns.StepKeepsInv` | dex/lending.go:104-461 | every pool and liquidator operation, error returns included, keeps the pool solvent |
| `LendingRuns.DebtsAreCovered` | dex/lending.go:331-461 | in every reachable state the sum over users of BorrowAmount * BorrowIndex / user index, as rationals, is between 0 and TotalBorrows |
| `LendingRuns.StepConserves` | dex/lending.go:186-461 | each operation keeps balance + TotalBorrows - TotalSupply - interest - fees, modulo 2^256 |
| `LendingRuns.ExecutionConserves` | dex/liquidation.go:353-414 | so does a liquidation, its protocol fee counted |
| `LendingRuns.ValueIsConserved` | dex/lending.go:186-461 | in every reachable state pool balance + TotalBorrows = TotalSupply + all interest + all fees, in 256-bit arithmetic |
| `LendingRuns.ValueIsExactIff` | dex/lending.go:739-743 | as a number, the pool's balance is total supply plus interest and fees less what is lent out exactly when that lies in [0, 2^256) |
| `LendingCash.BalanceMayWrap` | dex/lending.go:739-743 | a run in which a supply of 2^256 units is recorded in full and moves nothing |
| `LendingRuns.BorrowLeavesHealthy` | dex/lending.go:331-410 | a successful borrow leaves health at least 1, so a liquidator with the default threshold refuses it at the same indices |
| `LendingRuns.WithdrawLeavesRecordedHealth` | dex/lending.go:296-305 | a successful withdrawal leaves the recorded debt healthy |
| `LendingCash.AccrualCashIff` | dex/lending.go:598-653 | an accrual leaves TotalSupply at or above TotalBorrows exactly when the interest due fits the cash |
| `LendingCash.LiquidateCash` | dex/liquidation.go:131-215 | a liquidation takes its bonus, collateral less debt, from the cash, and checks nothing |
| `LendingCash.RepayCash` | dex/lending.go:413-461 | a repayment brings the amount asked, at most the debt, a negative amount included, less the interest due |
| `LendingCash.WithdrawCash` | dex/lending.go:257-328 | a withdrawal is paid exactly when the recorded debt stays healthy and the cash less the interest due covers it; paid or not, the interest has left the cash |
| `LendingCash.BorrowCash` | dex/lending.go:331-410 | a borrow is paid only out of the cash less the interest due; paid or not, the interest has left the cash |
| `LendingCash.StepKeepsCashIff` | dex/lending.go:186-461 | from reserves with non-negative cash, any operation keeps them so if and only if KeepsCash holds of it |
| `LendingCash.RunKeepsCashIff` | dex/lending.go:186-461 | over any run no reserve's TotalSupply falls below its TotalBorrows if and only if every operation keeps the cash |
| `LendingCash.CashMayGoNegative` | dex/lending.go:598-653 | a reachable run in which the accrual of a refused borrow, and later a liquidation at the default threshold, each take the cash from 0 to -1 |
| `Registry.KeysInjective` | bridge/registry_state.go:43-61 | registry, governance and nonce slots never share an account and key |
| `Registry.KeysAre` | bridge/registry_state.go:36-52 | rows lie under the gateway's account and the operators and nonce under the registrar's, each key its region's ASCII name and an eight-byte offset |
| `Registry.RowRoundTripIff` | bridge/registry_state.go:64-92 | a row gives its chain back exactly when the name does not end in a zero byte |
| `Registry.UnpackPatched` | bridge/registrar.go:328-333 | patching the header's gateway bytes changes the gateway and nothing else |
| `Registry.AppendKeepsTable` | bridge/registrar.go:203-216 | registering appends one row, repeats no id and keeps every slot past the count zero |
| `Registry.RemoveKeepsTable` | bridge/registrar.go:257-285 | swap-with-last removal keeps the table dense, its tail zero, and repeats no id |
| `Registry.GatewaySetKeepsTable` | bridge/registrar.go:322-333 | setting a gateway updates one row in place |
| `Registry.SeedMakesTableIff` | bridge/registry_state.go:147-167 | seeding an empty registry leaves a sound table exactly when the given ids are distinct |
| `Registry.DenseIsSmall` | bridge/registry_state.go:51-61 | a dense table has at most 2^33 rows, a duplicate-free one at most 2^32, so slot offsets never wrap |
| `Registry.ScanAgreesWithDirectory` | bridge/registrar.go:588-595 | the linear scan finds an id exactly when the directory has it, and finds its chain |
| `Registry.DistinctIffNoRepeats` | bridge/registrar.go:588-595 | ids are pairwise distinct exactly when no row repeats one |
| `Registry.DirectorySize` | bridge/registrar.go:340-350 | the count is the number of registered chains |
| `Registry.AppendIsInsert` | bridge/registrar.go:203-216 | appending a row inserts one id into the directory |
| `Registry.SwapRemoveIsDelete` | bridge/registrar.go:257-285 | swap-with-last removal deletes one id and nothing else |
| `Registry.UpdateIsUpdate` | bridge/registrar.go:322-333 | patching a row updates one id and nothing else |
| `Governance.DigestInjective` | bridge/registrar.go:543-552 | selector, nonce and payload fix the signed bytes and are fixed by them |
| `Governance.SeedLoadsBack` | bridge/registrar.go:656-701 | an accepted operator seed loads back exactly, whatever larger set it replaces, and leaves nonce and registry alone |
| `Governance.SeedAcceptedIff` | bridge/registrar.go:656-661 | a seed is accepted exactly with 1 <= threshold <= operators <= 65,536 |
| `Governance.LoadSucceedsIff` | bridge/registrar.go:678-701 | the stored set is used exactly with 1 <= threshold <= operators <= 65,536 in its header, and is then the low twenty bytes of the words after it |
| `Governance.BumpAdvances` | bridge/registrar.go:637-650 | the nonce advances by one and wraps at 64 bits |
| `Governance.ScanFrom` | bridge/registrar.go:508-538 | what the signature loop returns from any point of the signatures |
| `Governance.AcceptsIff` | bridge/registrar.go:497-538 | the multisig accepts exactly when some prefix of the signatures is entirely recoverable, repeats no operator and holds threshold-many; and which error otherwise |
| `RegistrarQuorum.AuthorisableIff` | bridge/registrar.go:475-538 | under a loaded operator set some recovery, selector and arguments are authorised if and only if the threshold is at most the distinct operators and at most 255, the signatures a call can carry |
| `RegistrarQuorum.AuthorisedIsInReach` | bridge/registrar.go:475-538 | whatever recovery does, an authorised write had a threshold within both bounds |
| `RegistrarQuorum.ReachableThresholdAuthorises` | bridge/registrar.go:475-538 | with the threshold within both, operators who can sign it can have any chain id unregistered |
| `RegistrarQuorum.SeedIsAuthorisableIff` | bridge/registrar.go:656-675 | so it is after every seed SeedGovernance accepts |
| `RegistrarQuorum.RepeatedOperatorsNeverAuthorise` | bridge/registrar.go:656-661 | one operator listed twice under threshold 2 is accepted and can never authorise anything |
| `RegistrarQuorum.TooManySignersNeverAuthorise` | bridge/registrar.go:656-661 | 256 different operators under threshold 256 are accepted and can never authorise anything |
| `Registrar.ReplyIsPayload` | bridge/registrar.go:565-583 | GetChain's reply decodes as a registration payload of the same chain |
| `Registrar.PayloadFixesAction` | bridge/registrar.go:404-473 | equal signed payloads under one selector decode to one action |
| `Registrar.GatewayCallReads` | bridge/registrar.go:456-473 | set-gateway arguments decode to the id of their first four bytes and the gateway of the next twenty, which are what is signed, or to the signatures' error |
| `Registrar.UnregisterCallReads` | bridge/registrar.go:440-454 | unregister arguments decode to the id of their first four bytes, which are what is signed |
| `Registrar.RegisterCallReads` | bridge/registrar.go:404-438 | register arguments decode to the chain they spell, which is what is signed |
| `Registrar.SignaturesRead` | bridge/registrar.go:476-491 | the signatures are as many 65-byte slices as their first byte says, refused exactly when fewer bytes follow |
| `Registrar.ShortCallsRefused` | bridge/registrar.go:404-473 | arguments too short for their fixed part or their name, over-long names and unknown selectors each have their error |
| `Registrar.ViewsAnswer` | bridge/registrar.go:341-401 | the views answer the row count, the row's registration payload and the nonce, read-only or not, and change nothing |
| `Registrar.Precompile.FindIndex` | bridge/registrar.go:588-595 | the first row with the id, or none |
| `Registrar.Precompile.Get` | bridge/registry_state.go:122-131 | the chain of the first row with the id |
| `Registrar.Precompile.All` | bridge/registry_state.go:133-140 | the chains in row order |
| `Registrar.Precompile.ReadGovernance` | bridge/registrar.go:678-701 | the operator set and threshold, or the refusal of a malformed header |
| `Registrar.Precompile.VerifyMultisig` | bridge/registrar.go:497-538 | the loop computes the verdict AcceptsIff characterises |
| `Registrar.Precompile.RegisterChain` | bridge/registrar.go:202-219 | the whole new storage, or AlreadyRegistered with nothing changed |
| `Registrar.Precompile.UnregisterChain` | bridge/registrar.go:256-288 | the whole new storage, or NotRegistered with nothing changed |
| `Registrar.Precompile.SetGateway` | bridge/registrar.go:320-336 | the whole new storage, or NotRegistered with nothing changed |
| `Registrar.Precompile.Run` | bridge/registrar.go:137-172 | dispatch on the selector first: writes, the three views, or UnknownSelector, read-only or not; a number is answered as a 32-byte word |
| `Registrar.Precompile.RunWrite` | bridge/registrar.go:178-337 | read-only, decoding, authorisation and edit errors in that order, and the whole new storage |
| `Registrar.Precompile.RunGetChain` | bridge/registrar.go:357-378 | the indexed chain's encoding, or the short-input and range errors |
| `Registrar.Precompile.SeedRegistry` | bridge/registry_state.go:147-167 | writes the rows and the count, or nothing on a registry that has any |
| `Registrar.Precompile.SeedGovernance` | bridge/registrar.go:656-675 | writes header and operators after both checks |
| `RegistrarRuns.EditRefinesDirectory` | bridge/registrar.go:203-333 | an authorised edit succeeds exactly when it applies to the directory and is then its insert, delete or update |
| `RegistrarRuns.EditAnswers` | bridge/registrar.go:203-333 | a registration answers the new row's number unless some row has the id; the other edits the first row that has it, or NotRegistered exactly when none does |
| `RegistrarRuns.WriteSucceedsIff` | bridge/registrar.go:178-337 | unknown selector, read-only mode, arguments and signatures are refused in that order, and what passes them is the edit |
| `RegistrarRuns.GatewayCallSets` | bridge/registrar.go:292-337 | a signed set-gateway call gives that chain that gateway and touches no other entry |
| `RegistrarRuns.SuccessSpendsNonce` | bridge/registrar.go:637-650 | a successful write advances the nonce, a failed one changes nothing at all |
| `RegistrarRuns.RunKeepsTable` | bridge/registry_state.go:55-167 | in every reachable state slots past the count are zero and ids repeat no more than in the worst seed so far; with seeds of distinct ids they never repeat, and the directory has count entries |
| `RegistrarRuns.RunSeedsTableIff` | bridge/registry_state.go:147-167 | a seed that takes effect leaves a sound table exactly when its ids are distinct |
| `RegistrarRuns.RunReadsDirectory` | bridge/registry_state.go:122-140 | through any run seeded with distinct ids a lookup finds exactly its directory entry, and the listing holds each entry once |
| `RegistrarRuns.RunEditsDirectory` | bridge/registrar.go:203-333 | along any run the rows move by exactly the edits that take effect, and wherever no id repeats the directory does: by their inserts, deletes and updates |
| `RegistrarRuns.AuthorisationRepeatsIff` | bridge/registrar.go:543-552 | two effective writes share an authorisation exactly when they sign the same selector and payload and a multiple of 2^64 writes lies between |
| `RegistrarRuns.AuthorisedOnce` | bridge/registrar.go:637-650 | short of 2^64 writes an authorisation for (selector, nonce, payload) takes effect at most once |
| `InferenceWire.EncodeReceipt` | aivmbridge/receipt.go:90-116 | the offset-walking encoder writes exactly the fields end to end |
| `InferenceWire.DecodeReceipt` | aivmbridge/receipt.go:121-163 | the offset-walking decoder computes the decoding, the version checked first |
| `InferenceWire.ReceiptRoundTrip` | aivmbridge/receipt.go:90-163 | a receipt decodes from its own encoding exactly when it declares the known version |
| `InferenceWire.ReceiptLayout` | aivmbridge/receipt.go:90-116 | the encoding is the sixteen fields in the wire order, end to end |
| `InferenceWire.DecodedReceiptIsCanonical` | aivmbridge/receipt.go:121-163 | nothing but canonical encodings decodes |
| `InferenceWire.ReceiptPreimageInjective` | aivmbridge/receipt.go:167-175 | distinct receipts hash distinct bytes |
| `InferenceWire.IntentPreimageInjective` | aivmbridge/intent.go:89-112 | any change to any field of an intent changes the bytes its id hashes |
| `InferenceWire.IntentLayout` | aivmbridge/intent.go:89-112 | the hashed bytes are the domain and the ten fields in the wire order |
| `InferenceWire.DecodeProof` | aivmbridge/proof.go:110-133 | neither truncated, nor too deep, nor trailed by junk |
| `InferenceWire.ProofRoundTrip` | aivmbridge/proof.go:100-133 | a proof within its bounds survives the wire |
| `InferenceWire.DecodedProofIsCanonical` | aivmbridge/proof.go:110-133 | the proof decoder reads nothing but canonical frames |
| `Merkle.VerifyMerkle` | aivmbridge/proof.go:49-71 | the loop computes the fold and both index checks |
| `Merkle.HonestFold` | aivmbridge/proof.go:59-71 | the honest path of every leaf folds to the root |
| `Merkle.FoldsThroughTree` | aivmbridge/proof.go:59-98 | whatever folds from a leaf into the root has the tree's depth, the leaf at its low index bits and the honest siblings |
| `Merkle.AcceptsIff` | aivmbridge/proof.go:49-98 | the verifier accepts under a perfect tree's root, of any depth up to 64, exactly the honest proofs of its own leaves |
| `Outbox.PreimageInjective` | aivmbridge/state.go:55-62 | distinct outbox, consumed and root keys hash distinct byte strings |
| `Outbox.Store.IntentStatus` | aivmbridge/state.go:179-182 | the status byte of the id |
| `Outbox.Store.PutPendingIntent` | aivmbridge/state.go:184-210 | the eight field words of the new record, at the store's own height |
| `Outbox.Store.LoadIntent` | aivmbridge/state.go:212-231 | the record at the id, or the absent one |
| `Outbox.Store.MarkIntentConsumed` | aivmbridge/state.go:233-243 | status and sentinel, nothing else |
| `Outbox.Store.ReceiptRootCommitted` | aivmbridge/state.go:251-258 | a non-zero root with a non-empty mark |
| `Outbox.Store.CommitReceiptRoot` | aivmbridge/state.go:265-272 | marks a non-zero root |
| `Outbox.PutLoadsBack` | aivmbridge/state.go:184-231 | a put record loads back whole, pending, at the store's height |
| `Outbox.RecordLayout` | aivmbridge/state.go:184-210 | status, caller, fan-out with threshold, and height lie byte for byte where the storage layout puts them |
| `Outbox.MarksAre` | aivmbridge/state.go:233-272 | a consumed intent and a committed root are marked with the height after the writer's in eight bytes, no other key moves, and the zero root is never marked |
| `Outbox.ConsumedLoadsBack` | aivmbridge/state.go:212-243 | consuming flips the status and nothing else of the record |
| `Outbox.CommitTrustsIff` | aivmbridge/state.go:251-272 | committing makes a root trusted exactly when it is not zero and the height is not the last uint64, whose sentinel wraps to the empty word |
| `Inference.AChainClient.SubmitInferenceIntent` | aivmbridge/native_achain_client.go:98-131 | records a new intent on the client's own rail, or refuses a replay with nothing changed |
| `Inference.AChainClient.VerifyInferenceReceipt` | aivmbridge/verify.go:26-91 | the checks in their order, and one write after all of them |
| `Inference.RunSettlesIff` | aivmbridge/verify.go:26-91 | at any point of any run a receipt settles if and only if it is Completed with an output, folds to a root whose last commit trusts it, and answers in all seven fields an intent submitted on this rail and not yet settled |
| `Inference.RefusalNames` | aivmbridge/verify.go:26-75 | each of the seven refusals is answered exactly when its check is the first to fail |
| `Inference.StatusIsHistory` | aivmbridge/state.go:179-243 | an intent's status is told by the history alone: settled, else submitted, else absent |
| `Inference.RootsAreHistory` | aivmbridge/state.go:251-272 | a root is trusted exactly as its last commit says |
| `Inference.OnlyTheTreesReceiptsSettle` | aivmbridge/verify.go:36-52 | under the root of a tree of receipts only that tree's receipt at that index settles |
| `Inference.EveryTreeReceiptCanSettle` | aivmbridge/verify.go:36-91 | every receipt of a committed tree that its pending intent asked for does settle, by its honest proof |
| `Inference.RecordMoves` | aivmbridge/state.go:184-243 | each step opens, closes or keeps the record at an id; no step touches another id's |
| `Inference.StatusMoves` | aivmbridge/verify.go:54-85 | each intent moves only None -> Pending -> Consumed |
| `Inference.SettlesOnce` | aivmbridge/verify.go:54-85 | an intent settles at most once along any run |
| `Inference.SettlementTracesToSubmission` | aivmbridge/native_achain_client.go:98-131 | every settlement traces back to an earlier submission of the very intent its id names, with the receipt's fields |
| `Inference.TrustedRootsWereCommitted` | aivmbridge/state.go:251-272 | a trusted root was committed by the import seam |
| `Rounding.CeilAtMost` | dex/full_math.go:51-58 | the rounding-up division is the least q with x <= q*y |
| `Quoter.PriceAdjunction` | dex/quoter_module.go:254-296 | the floored price map and the ceiled inverse are adjoint in both directions of trade |
| `Quoter.FeeAdjunction` | dex/quoter_module.go:266-308 | the fee deduction and its gross-up are adjoint |
| `Quoter.QuoteAdjunction` | dex/quoter_module.go:249-308 | for every price, fee below 1e6, direction and positive output, an input buys at least the output exactly when it is at least the quoted input |
| `Quoter.QuoteIsLeast` | dex/quoter_module.go:249-274 | the quoted input fills and one unit less does not |
| `Quoter.QuotesMonotone` | dex/quoter_module.go:242-308 | both quotes are monotone and the input quote never negative |
| `Quoter.QuoteThereAndBack` | dex/quoter_module.go:242-308 | quoting there and back never costs more and buys the same |
| `Quoter.QuoteCoversIffPriced` | dex/quoter_module.go:254-274 | a positive output's quote covers it exactly when the market carries a price |
| `Quoter.QuoteIsPriced` | dex/quoter_module.go:254-308 | with net the input less its floored fee of fee millionths, the output is net times sqrtPrice^2 over 2^192 rounded down, or net times 2^192 over sqrtPrice^2 rounded down |
| `Quoter.PriceFour` | dex/quoter_module.go:254-308 | at sqrtPrice 2 * 2^96 and no fee a hundred units buy four hundred, or twenty-five the other way |
| `FillAttestation.SettlementManager.Attest` | dex/fill_attestation.go:136-208 | records a pending fill and adds its value, or refuses, in the source's order |
| `FillAttestation.SettlementManager.Challenge` | dex/fill_attestation.go:218-264 | reverses a pending fill for the attester with a proof |
| `FillAttestation.SettlementManager.Finalize` | dex/fill_attestation.go:270-310 | finalizes a pending fill at a mature block |
| `FillAttestation.SettlementManager.Close` | dex/fill_attestation.go:248-261 | new status, value off the total, clamped at zero |
| `FillAttestation.SettlementManager.SetAttester` | dex/fill_attestation.go:346-367 | the first attester is free, later ones are the current one's to set |
| `FillAttestation.SettlementManager.SetCeiling` | dex/fill_attestation.go:370-390 | the attester's to set |
| `FillAttestation.SettlementManager.SetFraudWindow` | dex/fill_attestation.go:393-420 | the attester's to set |
| `FillAttestation.OutstandingIsPending` | dex/fill_attestation.go:136-310 | in every reachable state the outstanding total is exactly that of amount * price over pending fills |
| `FillAttestation.ClampNeverFires` | dex/fill_attestation.go:253-261 | taking a pending fill off the total never goes below zero |
| `FillAttestation.AttestSucceedsIff` | dex/fill_attestation.go:136-208 | a fill is recorded exactly when it is the attester's, new, positive, for someone, and total + amount * price stays within ceiling and 256 bits |
| `FillAttestation.ChallengeSucceedsIff` | dex/fill_attestation.go:218-264 | a challenge succeeds exactly for a pending fill, by the attester, with a proof, and takes amount * price off the total |
| `FillAttestation.FinalizeSucceedsIff` | dex/fill_attestation.go:270-310 | a finalization succeeds exactly for a pending fill whose block plus window, in 64 bits, is reached, and takes amount * price off the total |
| `FillAttestation.SettledForGood` | dex/fill_attestation.go:218-310 | once out of Pending a fill's record never changes again |
| `FillAttestation.FillTracesBack` | dex/fill_attestation.go:136-310 | every recorded fill traces back to one attestation by the then attester, whose terms it still has, and once out of Pending to one later challenge or finalization that obeyed its rule |
| `FillAttestation.RunStaysUnderCeilingIff` | dex/fill_attestation.go:136-390 | from a total within the ceiling on, a run keeps it within the ceiling in force if and only if each new ceiling covers what is then outstanding |
| `FillAttestation.FinalizeWaitsIff` | dex/fill_attestation.go:289-294 | finalization waits out the fraud window at every block exactly when the window's end fits a uint64 |
| `Dead.CalculateSplitUint256` | dead/contract.go:528-541 | burned and treasury shares together are the value |
| `Dead.BurnIsFractionIff` | dead/contract.go:528-541 | the burned share is the stated fraction, rounded down, exactly when value * bps fits 256 bits |
| `Dead.PartsBurnAlmostAsMuch` | dead/contract.go:528-541 | k parts at one ratio burn at most k - 1 units less than the whole, and never more |
| `Dead.DeadPrecompile.HandleReceive` | dead/contract.go:172-223 | only what is not yet marked goes through the split; nothing when disabled, read-only or without new funds |
| `Dead.DeadPrecompile.Configure` | dead/contract.go:238-371 | the four admin setters: authorisation, length and value checks, and the one field they set |
| `Dead.ConfigIsTheAdmins` | dead/contract.go:238-371 | along a run the configuration stands still through any stretch in which its admin makes no writable call; without an admin, for ever |
| `Dead.AdminCallSets` | dead/contract.go:238-371 | each admin call sets its field to what its argument word says, when the field can hold it |
| `Dead.DefaultsAre` | dead/contract.go:40-43 | with nothing configured the split is on, half is burned, and the rest is the default treasury's |
| `Dead.ReceiveSplits` | dead/contract.go:172-223 | new funds are paid out or marked burned, all of them |
| `Dead.ReceiveIs` | dead/contract.go:172-223 | burned is new funds times the ratio over 10,000 rounded down, the treasury gets the rest, and no other balance moves |
| `Dead.ReceiveSettlesIff` | dead/contract.go:196-223 | after a writable receive of new funds balance = burned if and only if the treasury is another address or nothing was due to it |
| `Dead.ReceiveIsIdempotent` | dead/contract.go:189-205 | a second receive is a no-op |
| `Dead.BurnedGrows` | dead/contract.go:226-234 | along any run what is marked burned at an address never decreases |
| `Dead.NextKeepsInv` | dead/contract.go:172-223 | sends, receives and admin calls keep burned <= balance and balance + paid = deposited at each dead address |
| `Dead.DepositsAreBurnedOrPaid` | dead/contract.go:172-223 | right after a writable receive, treasury elsewhere, everything ever deposited is burned or was paid to a treasury |
| `Cursor.Reader.Bytes` | contract/cursor.go:77-82 | the next n declared bytes, or a refusal that consumes nothing |
| `Cursor.Reader.Take` | contract/cursor.go:90-95 | the one slice, within the declared input |
| `Cursor.Reader.Uint` | contract/cursor.go:98-131 | a big-endian number of up to eight bytes, or a refusal |
| `Cursor.Reader.Fields` | contract/cursor.go:157-169 | n fields of w bytes, refused exactly when n * w exceeds what is left, with nothing to wrap |
| `Cursor.Reader.Rest` | contract/cursor.go:174-177 | everything left |
| `Cursor.Reader.End` | contract/cursor.go:185-190 | refuses any bytes left over |
| `Words.ReadSignedInverse` | dex/module.go:496-504 | every word reads as the int256 whose word it is |
| `Words.SignedRoundTripIff` | dex/position_module.go:407-419 | a number survives its word exactly when it is an int256 |
| `Words.Int24Narrows` | contract/word.go:62-71 | the narrowing admits exactly the int24 words, and an admitted word is its value's sign extension |
| `Words.NarrowsIff` | contract/word.go:42-71 | a number narrows to an unsigned or signed field of at most 64 bits exactly when the field can hold it |
| `Words.ExtensionIsSignedWord` | dex/module.go:647-666 | byte-wise sign extension of a 24-bit field is the two's-complement word |
| `PoolCodec.PoolKeyRoundTrip` | dex/module.go:647-666 | decoding inverts encoding on every in-range pool key |
| `PoolCodec.EncodingInjectiveOnDecoded` | dex/module.go:358-378 | decoded keys are in range, so distinct ones have distinct encodings |
| `PoolCodec.ReencodesIff` | dex/module.go:358-378 | a decodable 160-byte input re-encodes to itself exactly when its address words have clean high bytes |
| `PoolCodec.HookReads` | dex/module.go:609-644 | dynamic bytes written with offset and length read back, the empty ones as none |
| `PoolCodec.DynamicBytesRead` | dex/module.go:609-644 | dynamic bytes are what a pointer and length wholly inside the input point at, and empty exactly when there is no such pair |
| `PoolCodec.ModifyLiquidityRefusesIff` | dex/module.go:429-464 | liquidity changes are refused exactly below 288 bytes, for a bad key, and for a tick that is no int24 |
| `PoolCodec.ModifyLiquidityRoundTripIff` | dex/position_module.go:384-404 | decoding the built calldata gives back the key, ticks, delta, salt and hook bytes that went in, exactly when the delta is an int256 |
| `PoolCodec.KernelSeesTheCallIff` | dex/position_module.go:220-288 | exactly the decodable calls of a non-zero delta are routed, and the kernel decodes the very call the position manager decoded, signed as the operation requires, unless an adding operation was handed the least int256 |
| `PoolCodec.SignIsTheOperations` | dex/position_module.go:265-277 | adding operations ask for the delta's size, removing ones for its negative, modifying for the delta itself |
| `PoolCodec.LifecycleReads` | dex/position_module.go:220-250 | lifecycle calldata decodes to key, ticks, delta and salt, and an ask exactly for a side byte of one |
| `PoolCodec.ReadPoolKey` | dex/module.go:358-378 | the key decoder over the cursor depends on the declared input alone, whatever lies in memory past it |
| `PoolCodec.ReadABIBytes` | dex/module.go:609-644 | so does the dynamic-bytes reader: every bound is checked against the declared length |
| `PoolCodec.ReadModifyLiquidity` | dex/module.go:429-464 | so does the liquidity-change decoder |

## Left out

- Cryptography (ECDSA recovery, keccak, blake3, the post-quantum and zero-knowledge verifiers): libraries outside the repository.
- MulDiv and MulDivRoundingUp (dex/full_math.go:19-48): the quoter uses only the rounding-up division.
- Gas, logs, events, module registration, and the selector dispatch of every precompile but the registrar: plumbing settled by one branch each.
- ERC-20 calls: a pull or push is an arbitrary answer of the token, either a refusal or the amounts that left one side and reached the other; re-entry by a token or by the host is not part of this model.
- The width of the rail's pots: custody, claims and balances are unbounded naturals, where the source stores 256-bit words; the amounts crossing are uint64, as in the source.
- Where the halt bits and the fee controller come from: both are inputs; the checks on them, and the custody guard, are modelled. The withdraw and deposit bindings of dex/pool_manager.go are not part of this model.
- Deriving the slot writes of custody, claims and sets from their keys: RailSlots lets every call write any slot that is not a staging slot.
- Log encoding of import declarations (dex/settle_import.go:100-152): declarations are an append-only list; that a block's carried bytes are the recorded objects is what accepting it assumes.
- Lending slot packing (dex/lending.go:714-736): it drops the borrow index and is not a faithful round trip; the in-memory maps are the authority, and their behaviour under EVM revert is not part of this model. Batch and flash liquidation repeat Liquidate and are left out.
- The fill ledger's slot layout and reload path, for the same reason. A total wider than 256 bits aborts the call in the source; the model refuses it with nothing changed.
- Spending from a dead address other than by the split: nobody is taken to hold its key.
- dex/perpetuals.go, dex/margin.go: funding and expiry read the wall clock, and open interest does not follow the positions when one is added to on the opposite side, so there is no invariant over runs to state.
- dex/liquid.go, anchor/, compute/: a yield vault and two registries, each with its own storage; they share no state with the parts modelled, and none of those calls them.
- blake3/, ai/: hash wrappers and attestation checks whose content is the cryptography left out above.
- dex/position_commit.go, dex/settle_maker.go: the maker records and what they lock; of them the model has only the export they make (EntryPointsNameTheirToken), as a caller of the rail.
- dex/liquidity_amounts.go, dex/tick_math.go, dex/hooks.go: the pool manager's tick and permission arithmetic; no part modelled here reads it.
- LendingRuns.StepConserves: holds modulo 2^256, because the host's unchecked balance arithmetic does.
- LendingRuns.WithdrawLeavesRecordedHealth: speaks of the recorded, not the re-indexed debt, because that is what Withdraw checks (dex/lending.go:296-305).
- Rail.StateDB.Import: takes the claim id, the claim bytes and the token's answer as arguments; deriving the id from the transaction is ClaimIDPreimageInjective.
- RailWorld.VaultCoversBothPots: for runs whose exports name their tokens; PotsCoveredIff says what any other run needs.
- RailWorld.RecordedImportSucceeds: for the same runs, since an export that names another token can leave the vault short of the asset.
- RailWorld.CustodyIsSeedPlusDValue: for runs with no crossing at the last uint64 height, like RailWorld.RunStaysInStep, RecordedClaimBacked, RecordedImportSucceeds and PaidIsConsumedExports; MarkMayBeLost is a run in which it fails.
- RailWorld.CrossedExactlyOnce: for the same runs, and for no others (CrossedOnceThroughoutIff).
- RailSlots.FlushNeverFails: for runs shorter than the 64-bit counter, which wraps after 2^64 operations.
- Merkle.AcceptsIff: for perfect trees; a tree of any other shape is not part of this model.
- RegistrarRuns.RunKeepsTable: for genesis lists of at most 2^32 chains; a longer one is more than the 32-bit ids can tell apart.

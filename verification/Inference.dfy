/** The inference bridge's two steps, submit and settle, and what they guarantee over whole runs. */
module Inference {
  import opened Bytes
  import opened InferenceWire
  import opened Merkle
  import opened Outbox
  import opened Wrappers

  datatype BridgeError =
    | IntentReplay | ReceiptNotCompleted | ZeroOutput | RootNotCommitted | MerkleVerify | NoMatchingIntent
    | IntentConsumed | BindMismatch

  datatype Verified = Verified(intentId: Digest, output: Word)

  datatype Outcome<+T> = Outcome(slots: Slots, result: Result<T, BridgeError>)

  const COMPLETED: nat := 2

  // ----- submit -----

  /** What the outbox keeps of an intent. */
  function PendingRecord(i: Intent): OutboxIntent {
    OutboxIntent(PENDING, i.caller, i.cChainId, i.aChainId, i.modelSpecHash, i.promptHash, i.n, i.threshold, 0)
  }

  /** The intent bound to the client's own rail peer. */
  function OnRail(aChainId: Word, i: Intent): Intent {
    i.(aChainId := aChainId)
  }

  function Submitted(m: Slots, height: nat, aChainId: Word, i: Intent): Outcome<Digest> {
    var id := IntentId(OnRail(aChainId, i));
    if StatusOf(m, id) != NONE then Outcome(m, Err(IntentReplay))
    else Outcome(Put(m, height, id, PendingRecord(OnRail(aChainId, i))), Ok(id))
  }

  // ----- settle -----

  predicate Binds(r: Receipt<Digest>, oi: OutboxIntent) {
    && r.modelSpecHash == oi.modelSpecHash && r.promptHash == oi.promptHash && r.requester == oi.caller
    && r.cChainId == oi.cChainId && r.aChainId == oi.aChainId && r.n == oi.n && r.threshold == oi.threshold
  }

  function Refusal(m: Slots, r: Receipt<Digest>, p: Proof<Digest>): Option<BridgeError> {
    if r.status != COMPLETED then Some(ReceiptNotCompleted)
    else if r.outputHash == ZERO_WORD then Some(ZeroOutput)
    else if !RootCommitted(m, p.root) then Some(RootNotCommitted)
    else if !Accepts(Leaf(ReceiptHash(r)), p) then Some(MerkleVerify)
    else
      var oi := RecordAt(m, r.intentId);
      if oi.status == CONSUMED then Some(IntentConsumed)
      else if oi.status != PENDING then Some(NoMatchingIntent)
      else if !Binds(r, oi) then Some(BindMismatch)
      else None
  }

  function Settled(m: Slots, r: Receipt<Digest>, p: Proof<Digest>): Outcome<Verified> {
    match Refusal(m, r, p)
    case Some(e) => Outcome(m, Err(e))
    case None => Outcome(Consumed(m, r.intentId, RecordAt(m, r.intentId).height), Ok(Verified(r.intentId, r.outputHash)))
  }

  class AChainClient {
    const aChainId: Word

    constructor (peer: Word)
      ensures aChainId == peer
    {
      aChainId := peer;
    }

    method SubmitInferenceIntent(store: Store, i: Intent) returns (r: Result<Digest, BridgeError>)
      modifies store
      ensures Outcome(store.slots, r) == Submitted(old(store.slots), store.height, aChainId, i)
    {
      var bound := i.(aChainId := aChainId);
      var id := IntentId(bound);
      var status := store.IntentStatus(id);
      if status != NONE { return Err(IntentReplay); }
      store.PutPendingIntent(id, OutboxIntent(PENDING, bound.caller, bound.cChainId, bound.aChainId, bound.modelSpecHash,
                                              bound.promptHash, bound.n, bound.threshold, 0));
      r := Ok(id);
    }

    /** The checks in their order, and the one write after all of them. */
    method VerifyInferenceReceipt(store: Store, r: Receipt<Digest>, p: Proof<Digest>)
        returns (v: Result<Verified, BridgeError>)
      modifies store
      ensures Outcome(store.slots, v) == Settled(old(store.slots), r, p)
    {
      if r.status != COMPLETED { return Err(ReceiptNotCompleted); }
      if r.outputHash == ZERO_WORD { return Err(ZeroOutput); }
      var leaf := Leaf(ReceiptHash(r));
      var committed := store.ReceiptRootCommitted(p.root);
      if !committed { return Err(RootNotCommitted); }
      var included := VerifyMerkle(leaf, p);
      if !included { return Err(MerkleVerify); }
      var oi := store.LoadIntent(r.intentId);
      if oi.status == NONE { return Err(NoMatchingIntent); }
      if oi.status == CONSUMED { return Err(IntentConsumed); }
      if oi.status != PENDING { return Err(NoMatchingIntent); }
      if r.modelSpecHash != oi.modelSpecHash || r.promptHash != oi.promptHash || r.requester != oi.caller
         || r.cChainId != oi.cChainId || r.aChainId != oi.aChainId || r.n != oi.n || r.threshold != oi.threshold {
        return Err(BindMismatch);
      }
      store.MarkIntentConsumed(r.intentId, oi.height);
      v := Ok(Verified(r.intentId, r.outputHash));
    }
  }

  // ----- one settlement -----

  /** A receipt settles exactly when it is a Completed, non-zero-output receipt, included under a committed
      root, for a pending intent all seven of whose bound fields it matches. */
  lemma SettlesIff(m: Slots, r: Receipt<Digest>, p: Proof<Digest>)
    ensures Settled(m, r, p).result.Ok? <==>
            && r.status == COMPLETED && r.outputHash != ZERO_WORD && RootCommitted(m, p.root)
            && Accepts(Leaf(ReceiptHash(r)), p)
            && RecordAt(m, r.intentId).status == PENDING && Binds(r, RecordAt(m, r.intentId))
    ensures Settled(m, r, p).result.Ok? ==> Settled(m, r, p).result.value == Verified(r.intentId, r.outputHash)
    ensures Settled(m, r, p).result.Err? ==> Settled(m, r, p).slots == m
  {
  }

  /** Each refusal has its one cause: the first check that fails, in the order of the source. */
  lemma RefusalNames(m: Slots, r: Receipt<Digest>, p: Proof<Digest>)
    ensures var e, oi := Settled(m, r, p).result, RecordAt(m, r.intentId);
            var sealed := r.status == 2 && r.outputHash != ZERO_WORD && RootCommitted(m, p.root);
            var included := sealed && Accepts(Leaf(ReceiptHash(r)), p);
            && (e == Err(ReceiptNotCompleted) <==> r.status != 2)
            && (e == Err(ZeroOutput) <==> r.status == 2 && r.outputHash == ZERO_WORD)
            && (e == Err(RootNotCommitted) <==>
                  r.status == 2 && r.outputHash != ZERO_WORD && !RootCommitted(m, p.root))
            && (e == Err(MerkleVerify) <==> sealed && !included)
            && (e == Err(IntentConsumed) <==> included && oi.status == CONSUMED)
            && (e == Err(NoMatchingIntent) <==> included && oi.status != CONSUMED && oi.status != PENDING)
            && (e == Err(BindMismatch) <==> included && oi.status == PENDING && !Binds(r, oi))
  {
  }

  function ReceiptLeaves(rs: seq<Receipt<Digest>>): (leaves: seq<Digest>)
    ensures |leaves| == |rs|
  {
    seq(|rs|, i requires 0 <= i < |rs| => Leaf(ReceiptHash(rs[i])))
  }

  /** Under the root of a tree of receipts, only a receipt of that tree settles, at its own index. */
  lemma OnlyTheTreesReceiptsSettle(m: Slots, rs: seq<Receipt<Digest>>, depth: nat, r: Receipt<Digest>, p: Proof<Digest>)
    requires |rs| == Pow2(depth) && depth <= MAX_PROOF_DEPTH && p.index < U64
    requires p.root == Root(ReceiptLeaves(rs), depth) && Settled(m, r, p).result.Ok?
    ensures p.index < |rs| && rs[p.index] == r
  {
    SettlesIff(m, r, p);
    AcceptsIff(ReceiptLeaves(rs), depth, Leaf(ReceiptHash(r)), p.path, p.index);
  }

  /** And every receipt of a committed tree that its pending intent asked for does settle. */
  lemma EveryTreeReceiptCanSettle(m: Slots, rs: seq<Receipt<Digest>>, depth: nat, i: nat)
    requires |rs| == Pow2(depth) && depth <= MAX_PROOF_DEPTH && i < |rs| && i < U64
    requires RootCommitted(m, Root(ReceiptLeaves(rs), depth))
    requires rs[i].status == COMPLETED && rs[i].outputHash != ZERO_WORD
    requires RecordAt(m, rs[i].intentId).status == PENDING && Binds(rs[i], RecordAt(m, rs[i].intentId))
    ensures var leaves := ReceiptLeaves(rs);
            Settled(m, rs[i], Proof(Root(leaves, depth), HonestPath(leaves, depth, i), i)).result.Ok?
  {
    var leaves := ReceiptLeaves(rs);
    AcceptsIff(leaves, depth, Leaf(ReceiptHash(rs[i])), HonestPath(leaves, depth, i), i);
    SettlesIff(m, rs[i], Proof(Root(leaves, depth), HonestPath(leaves, depth, i), i));
  }

  // ----- steps -----

  datatype Step =
    | Submit(height: nat, intent: Intent)
    | Commit(root: Digest, height: nat)
    | Settle(receipt: Receipt<Digest>, proof: Proof<Digest>)

  predicate Fits(t: Step) {
    match t
    case Submit(h, i) => h < U64 && IntentFits(i)
    case Commit(_, h) => h < U64
    case Settle(_, p) => p.index < U64
  }

  function Next(m: Slots, aChainId: Word, t: Step): Slots {
    match t
    case Submit(h, i) => Submitted(m, h, aChainId, i).slots
    case Commit(root, h) => Committed(m, root, h)
    case Settle(r, p) => Settled(m, r, p).slots
  }

  /** Step `t` puts a new intent at `id`. */
  predicate Opens(m: Slots, aChainId: Word, t: Step, id: Digest) {
    t.Submit? && IntentId(OnRail(aChainId, t.intent)) == id && StatusOf(m, id) == NONE
  }

  /** Step `t` settles the intent at `id`. */
  predicate Closes(m: Slots, t: Step, id: Digest) {
    t.Settle? && t.receipt.intentId == id && Settled(m, t.receipt, t.proof).result.Ok?
  }

  /** The record at `id` after a step: opened, closed, or as it was. */
  lemma RecordMoves(m: Slots, aChainId: Word, t: Step, id: Digest)
    requires Fits(t)
    ensures RecordAt(Next(m, aChainId, t), id) ==
            if Opens(m, aChainId, t, id) then PendingRecord(OnRail(aChainId, t.intent)).(height := t.height)
            else if Closes(m, t, id) then RecordAt(m, id).(status := CONSUMED)
            else RecordAt(m, id)
  {
    match t
    case Submit(h, i) => SubmitMoves(m, h, aChainId, i, id);
    case Commit(root, h) => IntentFrame(m, Committed(m, root, h), id);
    case Settle(r, p) => SettleMoves(m, r, p, id);
  }

  lemma SubmitMoves(m: Slots, h: nat, aChainId: Word, i: Intent, id: Digest)
    requires h < U64 && IntentFits(i)
    ensures var own := IntentId(OnRail(aChainId, i));
            RecordAt(Submitted(m, h, aChainId, i).slots, id) ==
            if own == id && StatusOf(m, id) == NONE then PendingRecord(OnRail(aChainId, i)).(height := h)
            else RecordAt(m, id)
  {
    var own, oi := IntentId(OnRail(aChainId, i)), PendingRecord(OnRail(aChainId, i));
    if own == id {
      PutLoadsBack(m, h, id, oi);
    } else {
      PutFrame(m, own, id, h, oi);
    }
  }

  lemma SettleMoves(m: Slots, r: Receipt<Digest>, p: Proof<Digest>, id: Digest)
    ensures RecordAt(Settled(m, r, p).slots, id) ==
            if r.intentId == id && Settled(m, r, p).result.Ok? then RecordAt(m, id).(status := CONSUMED)
            else RecordAt(m, id)
  {
    if Settled(m, r, p).result.Ok? {
      var height := RecordAt(m, r.intentId).height;
      if r.intentId == id {
        ConsumedLoadsBack(m, id, height);
      } else {
        ConsumedFrame(m, r.intentId, id, height);
      }
    }
  }

  lemma RecordStatus(m: Slots, id: Digest)
    ensures RecordAt(m, id).status == StatusOf(m, id)
  {
  }

  /** Each intent moves only None -> Pending -> Consumed, and each move is a submit or a settlement of it. */
  lemma StatusMoves(m: Slots, aChainId: Word, t: Step, id: Digest)
    requires Fits(t)
    ensures var s, s' := StatusOf(m, id), StatusOf(Next(m, aChainId, t), id);
            && (Opens(m, aChainId, t, id) ==> s == NONE && s' == PENDING)
            && (Closes(m, t, id) ==> s == PENDING && s' == CONSUMED)
            && (!Opens(m, aChainId, t, id) && !Closes(m, t, id) ==> s' == s)
  {
    hide RecordAt, StatusOf, Put, Consumed, Accepts, RootCommitted, Binds;
    RecordMoves(m, aChainId, t, id);
    RecordStatus(m, id);
    RecordStatus(Next(m, aChainId, t), id);
  }

  // ----- runs -----

  predicate Follows(ms: seq<Slots>, aChainId: Word, ts: seq<Step>, i: nat)
    requires i < |ts| && |ms| == |ts| + 1
  {
    Fits(ts[i]) && ms[i + 1] == Next(ms[i], aChainId, ts[i])
  }

  ghost predicate IsRun(ms: seq<Slots>, aChainId: Word, ts: seq<Step>) {
    |ms| == |ts| + 1 && ms[0] == map[] && forall i: nat :: i < |ts| ==> Follows(ms, aChainId, ts, i)
  }

  lemma {:induction false} ConsumedStays(ms: seq<Slots>, aChainId: Word, ts: seq<Step>, id: Digest, i: nat, j: nat)
    requires IsRun(ms, aChainId, ts) && i <= j < |ms| && StatusOf(ms[i], id) == CONSUMED
    ensures StatusOf(ms[j], id) == CONSUMED
  {
    if i < j {
      ConsumedStays(ms, aChainId, ts, id, i, j - 1);
      assert Follows(ms, aChainId, ts, j - 1);
      StatusMoves(ms[j - 1], aChainId, ts[j - 1], id);
    }
  }

  /** An intent settles at most once along any run. */
  lemma SettlesOnce(ms: seq<Slots>, aChainId: Word, ts: seq<Step>, id: Digest, i: nat, j: nat)
    requires IsRun(ms, aChainId, ts) && i < |ts| && j < |ts|
    requires Closes(ms[i], ts[i], id) && Closes(ms[j], ts[j], id)
    ensures i == j
  {
    if i < j {
      NeverAgain(ms, aChainId, ts, id, i, j);
    } else if j < i {
      NeverAgain(ms, aChainId, ts, id, j, i);
    }
  }

  lemma NeverAgain(ms: seq<Slots>, aChainId: Word, ts: seq<Step>, id: Digest, i: nat, j: nat)
    requires IsRun(ms, aChainId, ts) && i < j < |ts| && Closes(ms[i], ts[i], id)
    ensures !Closes(ms[j], ts[j], id)
  {
    assert Follows(ms, aChainId, ts, i) && Follows(ms, aChainId, ts, j);
    StatusMoves(ms[i], aChainId, ts[i], id);
    ConsumedStays(ms, aChainId, ts, id, i + 1, j);
    StatusMoves(ms[j], aChainId, ts[j], id);
  }

  /** A recorded intent was submitted: the step that opened it, whose fields the record still has. */
  lemma {:induction false} RecordsWereSubmitted(ms: seq<Slots>, aChainId: Word, ts: seq<Step>, id: Digest, n: nat)
      returns (k: nat)
    requires IsRun(ms, aChainId, ts) && n < |ms| && StatusOf(ms[n], id) != NONE
    ensures k < n && Opens(ms[k], aChainId, ts[k], id)
    ensures RecordAt(ms[n], id).(status := PENDING)
            == PendingRecord(OnRail(aChainId, ts[k].intent)).(height := ts[k].height)
  {
    k := 0;
    if n > 0 {
      assert Follows(ms, aChainId, ts, n - 1);
      StatusMoves(ms[n - 1], aChainId, ts[n - 1], id);
      RecordMoves(ms[n - 1], aChainId, ts[n - 1], id);
      if Opens(ms[n - 1], aChainId, ts[n - 1], id) {
        k := n - 1;
      } else {
        k := RecordsWereSubmitted(ms, aChainId, ts, id, n - 1);
      }
    }
  }

  /** A trusted root was committed: nothing but the import seam makes a root trusted. */
  lemma {:induction false} TrustedRootsWereCommitted(ms: seq<Slots>, aChainId: Word, ts: seq<Step>, root: Digest, n: nat)
      returns (k: nat)
    requires IsRun(ms, aChainId, ts) && n < |ms| && RootCommitted(ms[n], root)
    ensures k < n && ts[k].Commit? && ts[k].root == root && ts[k].height != U64 - 1
  {
    k := 0;
    if n > 0 {
      var m, t := ms[n - 1], ts[n - 1];
      assert Follows(ms, aChainId, ts, n - 1);
      if t.Commit? {
        CommitTrustsIff(m, t.root, t.height);
      } else {
        RootsKept(m, aChainId, t, root);
      }
      if t.Commit? && t.root == root {
        k := n - 1;
      } else {
        k := TrustedRootsWereCommitted(ms, aChainId, ts, root, n - 1);
      }
    }
  }

  lemma RootsKept(m: Slots, aChainId: Word, t: Step, root: Digest)
    requires !t.Commit?
    ensures RootCommitted(Next(m, aChainId, t), root) == RootCommitted(m, root)
  {
    match t
    case Submit(h, i) => RootsUnchanged(m, IntentId(OnRail(aChainId, i)), root, h, PendingRecord(OnRail(aChainId, i)));
    case Settle(r, p) => RootsUnchanged(m, r.intentId, root, RecordAt(m, r.intentId).height, ABSENT);
  }

  // ----- what the store holds, told by the history -----

  /** The last commit of a root decides whether it is trusted: any height but the last uint64 will do. */
  function Trusted(ts: seq<Step>, root: Digest, n: nat): bool
    requires n <= |ts|
  {
    if n == 0 then false
    else if ts[n - 1].Commit? && ts[n - 1].root == root then root != Raw(ZERO_WORD) && ts[n - 1].height != U64 - 1
    else Trusted(ts, root, n - 1)
  }

  lemma {:induction false} RootsAreHistory(ms: seq<Slots>, aChainId: Word, ts: seq<Step>, root: Digest, n: nat)
    requires IsRun(ms, aChainId, ts) && n < |ms|
    ensures RootCommitted(ms[n], root) == Trusted(ts, root, n)
  {
    if n > 0 {
      RootsAreHistory(ms, aChainId, ts, root, n - 1);
      assert Follows(ms, aChainId, ts, n - 1);
      if ts[n - 1].Commit? {
        CommitTrustsIff(ms[n - 1], ts[n - 1].root, ts[n - 1].height);
      } else {
        RootsKept(ms[n - 1], aChainId, ts[n - 1], root);
      }
    }
  }

  predicate Submits(aChainId: Word, t: Step, id: Digest) {
    t.Submit? && IntentId(OnRail(aChainId, t.intent)) == id
  }

  predicate SubmittedBefore(aChainId: Word, ts: seq<Step>, id: Digest, n: nat)
    requires n <= |ts|
  {
    exists k :: 0 <= k < n && Submits(aChainId, ts[k], id)
  }

  predicate ClosedBefore(ms: seq<Slots>, ts: seq<Step>, id: Digest, n: nat)
    requires n <= |ts| && n <= |ms|
  {
    exists k :: 0 <= k < n && Closes(ms[k], ts[k], id)
  }

  lemma BeforeStep(ms: seq<Slots>, aChainId: Word, ts: seq<Step>, id: Digest, n: nat)
    requires 0 < n <= |ts| && n <= |ms|
    ensures SubmittedBefore(aChainId, ts, id, n)
            <==> SubmittedBefore(aChainId, ts, id, n - 1) || Submits(aChainId, ts[n - 1], id)
    ensures ClosedBefore(ms, ts, id, n) <==> ClosedBefore(ms, ts, id, n - 1) || Closes(ms[n - 1], ts[n - 1], id)
  {
  }

  /** An intent's status is its history: consumed if some step settled it, else pending if some step submitted
      it, else absent. */
  lemma {:induction false} StatusIsHistory(ms: seq<Slots>, aChainId: Word, ts: seq<Step>, id: Digest, n: nat)
    requires IsRun(ms, aChainId, ts) && n < |ms|
    ensures StatusOf(ms[n], id) == if ClosedBefore(ms, ts, id, n) then CONSUMED
                                   else if SubmittedBefore(aChainId, ts, id, n) then PENDING else NONE
    ensures ClosedBefore(ms, ts, id, n) ==> SubmittedBefore(aChainId, ts, id, n)
  {
    if n > 0 {
      StatusIsHistory(ms, aChainId, ts, id, n - 1);
      BeforeStep(ms, aChainId, ts, id, n);
      assert Follows(ms, aChainId, ts, n - 1);
      StatusMoves(ms[n - 1], aChainId, ts[n - 1], id);
    }
  }

  /** The receipt agrees with the intent its id names on every bound field. */
  predicate AnswersIts(r: Receipt<Digest>) {
    && r.intentId.IntentId?
    && var i := r.intentId.intent;
       && r.modelSpecHash == i.modelSpecHash && r.promptHash == i.promptHash && r.requester == i.caller
       && r.cChainId == i.cChainId && r.aChainId == i.aChainId && r.n == i.n && r.threshold == i.threshold
  }

  /** At any point of any run a receipt settles if and only if it is Completed with an output, its proof folds to
      a root whose last commit trusts it, the intent its id names was submitted on this rail and not settled since,
      and it agrees with that intent on all seven bound fields. */
  lemma RunSettlesIff(ms: seq<Slots>, aChainId: Word, ts: seq<Step>, n: nat)
    requires IsRun(ms, aChainId, ts) && n < |ts| && ts[n].Settle?
    ensures var r, p := ts[n].receipt, ts[n].proof;
            Settled(ms[n], r, p).result.Ok? <==>
            && r.status == 2 && r.outputHash != Zeros(32)
            && Trusted(ts, p.root, n) && Accepts(Leaf(ReceiptHash(r)), p)
            && SubmittedBefore(aChainId, ts, r.intentId, n) && !ClosedBefore(ms, ts, r.intentId, n)
            && AnswersIts(r)
  {
    var r, p := ts[n].receipt, ts[n].proof;
    SettlesIff(ms[n], r, p);
    RootsAreHistory(ms, aChainId, ts, p.root, n);
    StatusIsHistory(ms, aChainId, ts, r.intentId, n);
    RecordStatus(ms[n], r.intentId);
    if StatusOf(ms[n], r.intentId) == PENDING {
      var k := RecordsWereSubmitted(ms, aChainId, ts, r.intentId, n);
    }
  }

  /** Every settlement traces back to one earlier submission on this rail, of the very intent the receipt's
      id names, with the receipt's model, prompt, requester, chains and fan-out. */
  lemma SettlementTracesToSubmission(ms: seq<Slots>, aChainId: Word, ts: seq<Step>, j: nat) returns (k: nat)
    requires IsRun(ms, aChainId, ts) && j < |ts| && ts[j].Settle? && Closes(ms[j], ts[j], ts[j].receipt.intentId)
    ensures k < j && Opens(ms[k], aChainId, ts[k], ts[j].receipt.intentId)
    ensures var r, i := ts[j].receipt, ts[k].intent;
            && r.intentId == IntentId(OnRail(aChainId, i)) && r.aChainId == aChainId
            && r.modelSpecHash == i.modelSpecHash && r.promptHash == i.promptHash && r.requester == i.caller
            && r.cChainId == i.cChainId && r.n == i.n && r.threshold == i.threshold
  {
    var id := ts[j].receipt.intentId;
    assert Follows(ms, aChainId, ts, j);
    StatusMoves(ms[j], aChainId, ts[j], id);
    SettlesIff(ms[j], ts[j].receipt, ts[j].proof);
    k := RecordsWereSubmitted(ms, aChainId, ts, id, j);
  }
}
